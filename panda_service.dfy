/** The submitting side of `PanDAService`
    (python/lsst/ctrl/bps/panda/panda_service.py): the command line a PanDA
    pilot runs, the placeholder bookkeeping of the files sent to the
    distribution point, and the iDDS works built from the generated tasks.
    The file copies and the client call are not modelled: the directories
    among the source paths and the client's reply are inputs. */
module PandaService {
  import opened Common
  import opened Text
  import opened Codec
  import opened Dicts
  import opened Placeholders
  import opened PyValue
  import opened PandaReplies
  import IddsTasks

  // ---------------------------------------------------------------------------
  // add_decoder_prefix
  // ---------------------------------------------------------------------------

  /** The marker of the runner-command template that the decoder call replaces. */
  const CmdLineMarker: string := "_cmd_line_"

  /** What `copy_files_for_distribution` returns: the placeholder dictionary
      (placeholder name to file name) and the direct-IO files, listed in the
      order the command line joins them. */
  datatype DistributionFiles = DistributionFiles(placeholders: ODict<string>, directIo: seq<string>)

  /** `f"{k}:{v}" for k, v in files[0].items()`. */
  function FileItems(keys: seq<string>, values: map<string, string>): (items: seq<string>)
    requires forall i :: 0 <= i < |keys| ==> keys[i] in values
    ensures |items| == |keys|
    ensures forall i :: 0 <= i < |keys| ==> items[i] == keys[i] + ":" + values[keys[i]]
    decreases |keys|
  {
    if |keys| == 0 then []
    else [keys[0] + ":" + values[keys[0]]] + FileItems(keys[1..], values)
  }

  /** The text that takes the place of `_cmd_line_`: the hexed command line,
      the pilot's `${IN/L}` input list, the distribution path, the
      `key:value+...` placeholder list and the `+`-joined direct-IO list. */
  function DecoderArguments(cmdLine: string, distributionPath: string, files: DistributionFiles): string
    requires files.placeholders.Valid()
  {
    ConvertExecStringToHex(cmdLine) + " " + "${IN/L}" + " " + distributionPath + "  "
      + Join("+", FileItems(files.placeholders.keys, files.placeholders.values)) + " " + Join("+", files.directIo)
  }

  /** `add_decoder_prefix`, with the `runnerCommand` template as a parameter. */
  function AddDecoderPrefix(runnerCommand: string, cmdLine: string, distributionPath: string, files: DistributionFiles): string
    requires files.placeholders.Valid()
  {
    ReplaceAll(runnerCommand, CmdLineMarker, DecoderArguments(cmdLine, distributionPath, files))
  }

  /** The template is cut at its `_cmd_line_` markers into pieces free of the
      marker; the command glues the same pieces with the decoder arguments, so
      all other template text is unchanged, and a template without the marker
      is returned as it is. */
  lemma AddDecoderPrefixSpec(runnerCommand: string, cmdLine: string, distributionPath: string, files: DistributionFiles)
    requires files.placeholders.Valid()
    ensures var pieces := SplitOn(runnerCommand, CmdLineMarker);
      && Join(CmdLineMarker, pieces) == runnerCommand
      && (forall k :: 0 <= k < |pieces| ==> !Occurs(CmdLineMarker, pieces[k]))
      && AddDecoderPrefix(runnerCommand, cmdLine, distributionPath, files)
         == Join(DecoderArguments(cmdLine, distributionPath, files), pieces)
    ensures !Occurs(CmdLineMarker, runnerCommand) ==>
      AddDecoderPrefix(runnerCommand, cmdLine, distributionPath, files) == runnerCommand
  {
    ReplaceAllSpec(runnerCommand, CmdLineMarker, DecoderArguments(cmdLine, distributionPath, files));
    if !Occurs(CmdLineMarker, runnerCommand) {
      ReplaceAbsent(runnerCommand, CmdLineMarker, DecoderArguments(cmdLine, distributionPath, files));
    }
  }

  /** The `key:value` items read back as the dictionary they came from. */
  lemma {:induction false} FileItemsMap(acc: map<string, string>, keys: seq<string>, values: map<string, string>)
    requires forall i :: 0 <= i < |keys| ==> keys[i] in values && ':' !in keys[i] && ':' !in values[keys[i]]
    ensures KeyValueMap(acc, FileItems(keys, values)).Ok?
    ensures var m := KeyValueMap(acc, FileItems(keys, values)).value;
      && (forall k :: k in m <==> k in acc || k in keys)
      && (forall k :: k in keys ==> m[k] == values[k])
      && (forall k :: k in acc && k !in keys ==> m[k] == acc[k])
    decreases |keys|
  {
    if |keys| > 0 {
      var items := FileItems(keys, values);
      PairRoundTrip(keys[0], values[keys[0]]);
      assert items[1..] == FileItems(keys[1..], values);
      assert forall i :: 0 <= i < |keys| - 1 ==> keys[1..][i] == keys[i + 1];
      FileItemsMap(acc[keys[0] := values[keys[0]]], keys[1..], values);
      assert forall k :: k in keys <==> k == keys[0] || k in keys[1..];
    }
  }

  lemma DoubleSpace(y: string)
    ensures y + " " + " " == y + "  "
  {
    assert |y + " " + " "| == |y + "  "|;
    assert forall i :: 0 <= i < |y| ==> (y + " " + " ")[i] == (y + "  ")[i];
  }

  /** Five space-free words joined as the decoder arguments are (with a
      double space after the third) split back into them, with an empty word
      in the middle. */
  lemma ArgumentWords(w0: string, w1: string, w2: string, w4: string, w5: string)
    requires ' ' !in w0 && ' ' !in w1 && ' ' !in w2 && ' ' !in w4 && ' ' !in w5
    ensures Split(w0 + " " + w1 + " " + w2 + "  " + w4 + " " + w5, ' ') == [w0, w1, w2, "", w4, w5]
  {
    var y := w0 + " " + w1 + " " + w2;
    SplitFreePrefix(w0, "", ' ');
    SplitSnoc(w0, w1, ' ');
    SplitSnoc(w0 + " " + w1, w2, ' ');
    SplitSnoc(y, "", ' ');
    assert y + [' '] + "" == y + " ";
    DoubleSpace(y);
    SplitSnoc(y + " ", w4, ' ');
    SplitSnoc(y + "  " + w4, w5, ' ');
  }

  /** A character in no name, other than `:`, is in no `key:value` item. */
  lemma FileItemsAvoid(d: ODict<string>, c: char)
    requires d.Valid() && c != ':'
    requires forall k :: k in d.values ==> c !in k && c !in d.values[k]
    ensures forall i :: 0 <= i < |d.keys| ==> c !in FileItems(d.keys, d.values)[i]
  {
    var items := FileItems(d.keys, d.values);
    forall i | 0 <= i < |d.keys|
      ensures c !in items[i]
    {
      assert d.keys[i] in d.values;
    }
  }

  /** The `key:value+...` list reads back, through the decoder's parsing, as
      the placeholder dictionary, when no name contains `:` or `+`. */
  lemma FilesArgumentRoundTrip(d: ODict<string>)
    requires d.Valid() && |d.keys| > 0
    requires forall k :: k in d.values ==> ':' !in k && '+' !in k && ':' !in d.values[k] && '+' !in d.values[k]
    ensures FileMap(Join("+", FileItems(d.keys, d.values))) == Ok(d.values)
  {
    var items := FileItems(d.keys, d.values);
    FileItemsAvoid(d, '+');
    SplitJoin(items, '+');
    ItemsMap(d);
  }

  lemma ItemsMap(d: ODict<string>)
    requires d.Valid()
    requires forall k :: k in d.values ==> ':' !in k && ':' !in d.values[k]
    ensures KeyValueMap(map[], FileItems(d.keys, d.values)) == Ok(d.values)
  {
    var r := KeyValueMap(map[], FileItems(d.keys, d.values));
    assert r.Ok? && (forall k :: k in r.value <==> k in d.keys) && (forall k :: k in d.keys ==> r.value[k] == d.values[k]) by {
      assert forall i :: 0 <= i < |d.keys| ==> d.keys[i] in d.values;
      FileItemsMap(map[], d.keys, d.values);
    }
    assert r.value == d.values;
  }

  lemma HexHasNoSpace(cmdLine: string)
    ensures ' ' !in ConvertExecStringToHex(cmdLine)
  {
  }

  /** The words of the decoder arguments, when no part contains a space. */
  lemma DecoderArgumentWords(cmdLine: string, distributionPath: string, files: DistributionFiles)
    requires files.placeholders.Valid()
    requires ' ' !in distributionPath
    requires forall k :: k in files.placeholders.values ==> ' ' !in k && ' ' !in files.placeholders.values[k]
    requires forall i :: 0 <= i < |files.directIo| ==> ' ' !in files.directIo[i]
    ensures Split(DecoderArguments(cmdLine, distributionPath, files), ' ') ==
      [ConvertExecStringToHex(cmdLine), "${IN/L}", distributionPath, "",
       Join("+", FileItems(files.placeholders.keys, files.placeholders.values)), Join("+", files.directIo)]
  {
    var d := files.placeholders;
    var items := FileItems(d.keys, d.values);
    HexHasNoSpace(cmdLine);
    FileItemsAvoid(d, ' ');
    JoinAvoids("+", items, ' ');
    JoinAvoids("+", files.directIo, ' ');
    ArgumentWords(ConvertExecStringToHex(cmdLine), "${IN/L}", distributionPath, Join("+", items), Join("+", files.directIo));
  }

  /** The argument words the edge-node decoder receives. When neither the
      distribution path nor any file name contains a space, and the
      placeholder names and file names contain no `:` or `+`, the command
      splits at spaces into the hex text, `${IN/L}`, the path, an empty word
      (dropped by the shell), the placeholder list and the direct-IO list;
      the decoder gets the command line back from the first, the placeholder
      dictionary back from the fifth and the direct-IO files back from the
      last. */
  lemma DecoderArgumentsRoundTrip(cmdLine: string, distributionPath: string, files: DistributionFiles)
    requires files.placeholders.Valid() && |files.placeholders.keys| > 0 && |files.directIo| > 0
    requires ' ' !in distributionPath
    requires forall k :: k in files.placeholders.values ==>
      ' ' !in k && ':' !in k && '+' !in k &&
      ' ' !in files.placeholders.values[k] && ':' !in files.placeholders.values[k] && '+' !in files.placeholders.values[k]
    requires forall i :: 0 <= i < |files.directIo| ==> ' ' !in files.directIo[i] && '+' !in files.directIo[i]
    ensures var words := Split(DecoderArguments(cmdLine, distributionPath, files), ' ');
      && |words| == 6
      && DecodeHexCommandLine(words[0]) == Ok(cmdLine)
      && words[1] == "${IN/L}" && words[2] == distributionPath && words[3] == ""
      && FileMap(words[4]) == Ok(files.placeholders.values)
      && Split(words[5], '+') == files.directIo
  {
    DecoderArgumentWords(cmdLine, distributionPath, files);
    CommandLineRoundTrip(cmdLine);
    FilesArgumentRoundTrip(files.placeholders);
    SplitJoin(files.directIo, '+');
  }

  // ---------------------------------------------------------------------------
  // copy_files_for_distribution: the placeholder map and the direct-IO files
  // ---------------------------------------------------------------------------

  /** A file a task uses: its placeholder name, where the submit side has it,
      whether it is already at the edge node and whether it is read directly. */
  datatype FileSpec = FileSpec(name: string, submissionUrl: string, delivered: bool, directIo: bool)

  /** A task of the generated workflow, as `submit` reads it. */
  datatype GeneratedTask = GeneratedTask(
    name: string,
    executable: string,
    queue: Option<string>,
    dependencies: seq<IddsTasks.JobDependency>,
    maxRss: Option<int>,
    cloud: Option<string>,
    site: Option<string>,
    priority: Option<int>,
    coreCount: Option<int>,
    workingGroup: Option<string>,
    prodSourceLabel: Option<string>,
    maxAttempt: Option<int>,
    maxWalltime: Option<int>,
    isFinal: bool,
    isDagEnd: bool,
    filesUsedByTask: seq<FileSpec>)

  /** The files of all tasks, task after task. */
  function Flatten(tasks: seq<GeneratedTask>): (files: seq<FileSpec>)
    decreases |tasks|
  {
    if |tasks| == 0 then []
    else Flatten(tasks[..|tasks| - 1]) + tasks[|tasks| - 1].filesUsedByTask
  }

  /** A file is among the flattened files iff some task uses it. */
  lemma {:induction false} FlattenMembers(tasks: seq<GeneratedTask>, f: FileSpec)
    ensures f in Flatten(tasks) <==> exists t :: 0 <= t < |tasks| && f in tasks[t].filesUsedByTask
    decreases |tasks|
  {
    if |tasks| > 0 {
      var init := tasks[..|tasks| - 1];
      FlattenMembers(init, f);
      if f in Flatten(tasks) && f !in Flatten(init) {
        assert f in tasks[|tasks| - 1].filesUsedByTask;
      }
      if exists t :: 0 <= t < |tasks| && f in tasks[t].filesUsedByTask {
        var t :| 0 <= t < |tasks| && f in tasks[t].filesUsedByTask;
        if t < |tasks| - 1 {
          assert init[t] == tasks[t];
        }
      }
    }
  }

  /** The first loop's state: `local_pfns` (placeholder name to source path)
      and the `direct_IO_files` set. */
  datatype Pfns = Pfns(localPfns: ODict<string>, directIo: set<string>)

  /** One iteration of the inner loop: only an undelivered file is recorded. */
  function AddFile(st: Pfns, f: FileSpec): Pfns
    requires st.localPfns.Valid()
  {
    if f.delivered then st
    else Pfns(Put(st.localPfns, f.name, f.submissionUrl), if f.directIo then st.directIo + {f.name} else st.directIo)
  }

  function AddFiles(st: Pfns, files: seq<FileSpec>): (r: Pfns)
    requires st.localPfns.Valid()
    ensures r.localPfns.Valid()
    decreases |files|
  {
    if |files| == 0 then st
    else AddFile(AddFiles(st, files[..|files| - 1]), files[|files| - 1])
  }

  /** Whether `files[i]` is the last undelivered file of its name. */
  predicate LastUndelivered(files: seq<FileSpec>, i: int)
    requires 0 <= i < |files|
  {
    !files[i].delivered && forall j :: i < j < |files| && !files[j].delivered ==> files[j].name != files[i].name
  }

  /** Some undelivered file has name `k`. */
  predicate Undelivered(files: seq<FileSpec>, k: string) {
    exists i :: 0 <= i < |files| && !files[i].delivered && files[i].name == k
  }

  /** Some undelivered direct-IO file has name `k`. */
  predicate UndeliveredDirect(files: seq<FileSpec>, k: string) {
    exists i :: 0 <= i < |files| && !files[i].delivered && files[i].directIo && files[i].name == k
  }

  lemma UndeliveredSnoc(files: seq<FileSpec>, k: string)
    requires |files| > 0
    ensures var n := |files| - 1;
      && (Undelivered(files, k) <==> Undelivered(files[..n], k) || (!files[n].delivered && files[n].name == k))
      && (UndeliveredDirect(files, k) <==>
            UndeliveredDirect(files[..n], k) || (!files[n].delivered && files[n].directIo && files[n].name == k))
  {
    var n := |files| - 1;
    var init := files[..n];
    if Undelivered(files, k) && !(!files[n].delivered && files[n].name == k) {
      var i :| 0 <= i < |files| && !files[i].delivered && files[i].name == k;
      assert init[i] == files[i];
    }
    if Undelivered(init, k) {
      var i :| 0 <= i < n && !init[i].delivered && init[i].name == k;
      assert files[i] == init[i];
    }
    if UndeliveredDirect(files, k) && !(!files[n].delivered && files[n].directIo && files[n].name == k) {
      var i :| 0 <= i < |files| && !files[i].delivered && files[i].directIo && files[i].name == k;
      assert init[i] == files[i];
    }
    if UndeliveredDirect(init, k) {
      var i :| 0 <= i < n && !init[i].delivered && init[i].directIo && init[i].name == k;
      assert files[i] == init[i];
    }
  }

  /** After the files are added, a name is a placeholder iff it was one or an
      undelivered file has it, and it is read directly iff it was or an
      undelivered direct-IO file has it. */
  lemma {:induction false} AddFilesNames(st: Pfns, files: seq<FileSpec>, k: string)
    requires st.localPfns.Valid()
    ensures k in AddFiles(st, files).localPfns.values <==> k in st.localPfns.values || Undelivered(files, k)
    ensures k in AddFiles(st, files).directIo <==> k in st.directIo || UndeliveredDirect(files, k)
    decreases |files|
  {
    if |files| > 0 {
      AddFilesNames(st, files[..|files| - 1], k);
      UndeliveredSnoc(files, k);
    }
  }

  /** The last undelivered file of a name gives the placeholder's source path. */
  lemma {:induction false} AddFilesPaths(st: Pfns, files: seq<FileSpec>, i: int)
    requires st.localPfns.Valid()
    requires 0 <= i < |files| && LastUndelivered(files, i)
    ensures files[i].name in AddFiles(st, files).localPfns.values
    ensures AddFiles(st, files).localPfns.values[files[i].name] == files[i].submissionUrl
    decreases |files|
  {
    var n := |files| - 1;
    if i < n {
      var init := files[..n];
      assert init[i] == files[i];
      assert LastUndelivered(init, i) by {
        forall j | i < j < n && !init[j].delivered
          ensures init[j].name != init[i].name
        {
          assert init[j] == files[j];
        }
      }
      AddFilesPaths(st, init, i);
      assert files[n].delivered || files[n].name != files[i].name;
      assert AddFiles(st, files) == AddFile(AddFiles(st, init), files[n]);
    } else {
      assert AddFiles(st, files) == AddFile(AddFiles(st, files[..n]), files[n]);
    }
  }

  /** The files the first loop records, starting from nothing. */
  function CollectPfns(tasks: seq<GeneratedTask>): (r: Pfns)
    ensures r.localPfns.Valid()
  {
    AddFiles(Pfns(Empty(), {}), Flatten(tasks))
  }

  /** The name listed when no file is read directly. */
  const DefaultDirectIo: string := "cmdlineplaceholder"

  /** The direct-IO set as returned: never empty. */
  function WithDefaultDirectIo(direct: set<string>): (r: set<string>)
    ensures r != {}
    ensures direct <= r
  {
    if |direct| == 0 then {DefaultDirectIo} else direct
  }

  /** The placeholder value of a source path: its basename, with `/` after it
      for a directory (so that the edge node sees it as one). */
  function PlaceholderValue(src: string, dirs: set<string>): string {
    Basename(src) + (if src in dirs then "/" else "")
  }

  /** A placeholder value ends with `/` exactly when its path is a directory,
      contains no other `/`, and is the basename without that `/`. */
  lemma PlaceholderValueSpec(src: string, dirs: set<string>)
    ensures var v := PlaceholderValue(src, dirs);
      && (|v| > 0 && v[|v| - 1] == '/' <==> src in dirs)
      && (forall i :: 0 <= i < |v| - 1 ==> v[i] != '/')
      && (if src in dirs then v[..|v| - 1] else v) == Basename(src)
  {
    var v := PlaceholderValue(src, dirs);
    var b := Basename(src);
    assert '/' !in b by {
      BasenameSpec(src);
    }
    if src in dirs {
      assert v == b + "/";
      assert v[..|v| - 1] == b;
    } else {
      assert v == b;
      if |v| > 0 {
        assert v[|v| - 1] in b;
      }
    }
    forall i | 0 <= i < |v| - 1 ensures v[i] != '/' {
      assert v[i] == b[i];
    }
  }

  /** `files_plc_hldr`: the same keys in the same order, each mapped to the
      placeholder value of its source path. */
  function PlaceholderMap(localPfns: ODict<string>, dirs: set<string>): (r: ODict<string>)
    requires localPfns.Valid()
    ensures r.Valid()
  {
    ODict(localPfns.keys, MapValues(localPfns.keys, localPfns.values, src => PlaceholderValue(src, dirs)))
  }

  lemma AddFilesSnoc(st: Pfns, files: seq<FileSpec>, more: seq<FileSpec>, j: int)
    requires st.localPfns.Valid() && 0 <= j < |more|
    ensures AddFiles(st, files + more[..j + 1]) == AddFile(AddFiles(st, files + more[..j]), more[j])
  {
    var xs := files + more[..j + 1];
    assert xs[..|xs| - 1] == files + more[..j];
  }

  lemma FlattenSnoc(tasks: seq<GeneratedTask>, t: int)
    requires 0 <= t < |tasks|
    ensures Flatten(tasks[..t + 1]) == Flatten(tasks[..t]) + tasks[t].filesUsedByTask[..|tasks[t].filesUsedByTask|]
  {
    assert tasks[..t + 1][..t] == tasks[..t];
    assert tasks[t].filesUsedByTask[..|tasks[t].filesUsedByTask|] == tasks[t].filesUsedByTask;
  }

  /** The first loop of `copy_files_for_distribution`: every file of every
      task, in order, through `AddFile`. */
  method CollectLocalPfns(tasks: seq<GeneratedTask>) returns (localPfns: ODict<string>, direct: set<string>)
    ensures Pfns(localPfns, direct) == CollectPfns(tasks)
  {
    localPfns := Empty();
    direct := {};
    for t := 0 to |tasks|
      invariant localPfns.Valid()
      invariant Pfns(localPfns, direct) == AddFiles(Pfns(Empty(), {}), Flatten(tasks[..t]))
    {
      var task := tasks[t];
      assert Flatten(tasks[..t]) + task.filesUsedByTask[..0] == Flatten(tasks[..t]);
      for j := 0 to |task.filesUsedByTask|
        invariant localPfns.Valid()
        invariant Pfns(localPfns, direct) == AddFiles(Pfns(Empty(), {}), Flatten(tasks[..t]) + task.filesUsedByTask[..j])
      {
        AddFilesSnoc(Pfns(Empty(), {}), Flatten(tasks[..t]), task.filesUsedByTask, j);
        var file := task.filesUsedByTask[j];
        if !file.delivered {
          localPfns := Put(localPfns, file.name, file.submissionUrl);
          if file.directIo {
            direct := direct + {file.name};
          }
        }
      }
      FlattenSnoc(tasks, t);
    }
    assert tasks[..|tasks|] == tasks;
  }

  /** One step of that loop: `placeholders[key] = basename(src)`, then `+= "/"`
      for a directory. */
  method SetPlaceholder(placeholders: ODict<string>, key: string, src: string, dirs: set<string>)
    returns (r: ODict<string>)
    requires placeholders.Valid()
    ensures r == Put(placeholders, key, PlaceholderValue(src, dirs))
  {
    r := Put(placeholders, key, Basename(src));
    if src in dirs {
      PutAppend(placeholders, key, Basename(src), "/");
      r := Put(r, key, r.values[key] + "/");
      assert PlaceholderValue(src, dirs) == Basename(src) + "/";
    } else {
      assert PlaceholderValue(src, dirs) == Basename(src) + "";
      assert Basename(src) + "" == Basename(src);
    }
  }

  /** The last loop of `copy_files_for_distribution`: the basename of each
      source path, with `/` added for a directory. */
  method BuildPlaceholders(localPfns: ODict<string>, dirs: set<string>) returns (placeholders: ODict<string>)
    requires localPfns.Valid()
    ensures placeholders == PlaceholderMap(localPfns, dirs)
  {
    ghost var value := src => PlaceholderValue(src, dirs);
    placeholders := Empty();
    for i := 0 to |localPfns.keys|
      invariant placeholders.Valid()
      invariant placeholders.keys == localPfns.keys[..i]
      invariant placeholders.values == MapValues(localPfns.keys[..i], localPfns.values, value)
    {
      MapValuesPut(localPfns, value, i, placeholders);
      var key := localPfns.keys[i];
      var src := localPfns.values[key];
      assert value(src) == PlaceholderValue(src, dirs);
      placeholders := SetPlaceholder(placeholders, key, src, dirs);
    }
    assert localPfns.keys[..|localPfns.keys|] == localPfns.keys;
  }

  /** Iterating a set: each element once, in an order the model leaves open. */
  method ListSet(direct: set<string>) returns (listed: seq<string>)
    ensures forall x :: x in listed <==> x in direct
    ensures forall i, j :: 0 <= i < j < |listed| ==> listed[i] != listed[j]
  {
    listed := [];
    var rest := direct;
    while rest != {}
      invariant rest <= direct
      invariant forall x :: x in listed <==> x in direct && x !in rest
      invariant forall i, j :: 0 <= i < j < |listed| ==> listed[i] != listed[j]
      decreases |rest|
    {
      var x :| x in rest;
      listed := listed + [x];
      rest := rest - {x};
    }
  }

  /** `copy_files_for_distribution` without the copies: the placeholder
      dictionary and the direct-IO files, listed in an order the model leaves
      open (Python iterates a set in an unspecified order). */
  method CopyFilesForDistribution(tasks: seq<GeneratedTask>, dirs: set<string>) returns (files: DistributionFiles)
    ensures files.placeholders == PlaceholderMap(CollectPfns(tasks).localPfns, dirs)
    ensures forall x :: x in files.directIo <==> x in WithDefaultDirectIo(CollectPfns(tasks).directIo)
    ensures forall i, j :: 0 <= i < j < |files.directIo| ==> files.directIo[i] != files.directIo[j]
  {
    var localPfns, direct := CollectLocalPfns(tasks);
    if |direct| == 0 {
      direct := direct + {DefaultDirectIo};
    }
    var placeholders := BuildPlaceholders(localPfns, dirs);
    var listed := ListSet(direct);
    files := DistributionFiles(placeholders, listed);
  }

  /** Only undelivered files become placeholders, and a name is read directly
      iff an undelivered direct-IO file has it, or, when none has,
      `cmdlineplaceholder` stands alone; every other direct-IO name is also a
      placeholder. */
  lemma DistributionNames(tasks: seq<GeneratedTask>, dirs: set<string>, k: string)
    ensures var pfns := CollectPfns(tasks);
      && (k in PlaceholderMap(pfns.localPfns, dirs).values <==> Undelivered(Flatten(tasks), k))
      && (k in pfns.directIo <==> UndeliveredDirect(Flatten(tasks), k))
      && (k in WithDefaultDirectIo(pfns.directIo) <==> k in pfns.directIo || (pfns.directIo == {} && k == DefaultDirectIo))
      && (k in pfns.directIo ==> k in pfns.localPfns.values)
  {
    AddFilesNames(Pfns(Empty(), {}), Flatten(tasks), k);
  }

  /** The placeholder of a file's name reads the basename of the source path
      of the last undelivered file with that name, with `/` for a directory. */
  lemma DistributionPaths(tasks: seq<GeneratedTask>, dirs: set<string>, i: int)
    requires 0 <= i < |Flatten(tasks)| && LastUndelivered(Flatten(tasks), i)
    ensures var f := Flatten(tasks)[i];
      var plc := PlaceholderMap(CollectPfns(tasks).localPfns, dirs);
      f.name in plc.values && plc.values[f.name] == PlaceholderValue(f.submissionUrl, dirs)
  {
    AddFilesPaths(Pfns(Empty(), {}), Flatten(tasks), i);
  }

  // ---------------------------------------------------------------------------
  // submit: the works, their defaults and the final-work condition
  // ---------------------------------------------------------------------------

  /** The configuration values `submit` reads; a search that finds nothing
      is `None`. */
  datatype SubmitConfig = SubmitConfig(
    runnerCommand: string,
    fileDistributionEndPoint: string,
    processingType: Option<string>,
    taskType: Option<string>,
    prodSourceLabel: Option<string>,
    vo: Option<string>)

  /** `config.search(key, opt={"default": d})`. */
  function SearchOr(v: Option<string>, d: string): string {
    if v.Some? then v.value else d
  }

  /** `x if x else d` for an optional integer: `None` and `0` are false. */
  function IntOr(v: Option<int>, d: int): int {
    if v.Some? && v.value != 0 then v.value else d
  }

  /** `x if x else d` for an optional string: `None` and `""` are false. */
  function StringOr(v: Option<string>, d: string): string {
    if v.Some? && |v.value| > 0 then v.value else d
  }

  const DefaultPriority: int := 900
  const DefaultWalltime: int := 90000

  datatype Collection = Collection(scope: string, name: string)

  function InputCollection(idx: nat): Collection {
    Collection("pseudo_dataset", "pseudo_input_collection#" + IntToString(idx))
  }

  function OutputCollection(idx: nat): Collection {
    Collection("pseudo_dataset", "pseudo_output_collection#" + IntToString(idx))
  }

  /** The `DomaPanDAWork` parameters that depend on the task, the position
      or the configuration. */
  datatype Work = Work(
    executable: string,
    primaryInputCollection: Collection,
    outputCollections: seq<Collection>,
    logCollections: seq<Collection>,
    dependencyMap: seq<IddsTasks.JobDependency>,
    taskName: string,
    taskQueue: Option<string>,
    taskRss: Option<int>,
    taskCloud: Option<string>,
    taskSite: Option<string>,
    taskPriority: int,
    coreCount: Option<int>,
    workingGroup: Option<string>,
    processingType: Option<string>,
    taskType: string,
    prodSourceLabel: string,
    vo: string,
    maxAttempt: Option<int>,
    maxWalltime: int)

  /** The work of the task at position `idx`. */
  function MakeWork(cfg: SubmitConfig, files: DistributionFiles, task: GeneratedTask, idx: nat): Work
    requires files.placeholders.Valid()
  {
    Work(
      AddDecoderPrefix(cfg.runnerCommand, task.executable, cfg.fileDistributionEndPoint, files),
      InputCollection(idx),
      [OutputCollection(idx)],
      [],
      task.dependencies,
      task.name,
      task.queue,
      task.maxRss,
      task.cloud,
      task.site,
      IntOr(task.priority, DefaultPriority),
      task.coreCount,
      task.workingGroup,
      cfg.processingType,
      SearchOr(cfg.taskType, "test"),
      StringOr(task.prodSourceLabel, SearchOr(cfg.prodSourceLabel, "test")),
      SearchOr(cfg.vo, "wlcg"),
      task.maxAttempt,
      IntOr(task.maxWalltime, DefaultWalltime))
  }

  /** A work never has priority or walltime 0: a task's own nonzero value is
      kept and a missing or zero one becomes 900 and 90000; the source label
      is the task's when it has a nonempty one and the configuration's (by
      default `test`) otherwise, and is never empty unless the configuration
      sets it empty. */
  lemma MakeWorkDefaults(cfg: SubmitConfig, files: DistributionFiles, task: GeneratedTask, idx: nat)
    requires files.placeholders.Valid()
    ensures MakeWork(cfg, files, task, idx).taskPriority != 0 && MakeWork(cfg, files, task, idx).maxWalltime != 0
    ensures MakeWork(cfg, files, task, idx).taskPriority == DefaultPriority <==> task.priority.None? || task.priority.value in {0, DefaultPriority}
    ensures task.priority.Some? && task.priority.value != 0 ==> MakeWork(cfg, files, task, idx).taskPriority == task.priority.value
    ensures MakeWork(cfg, files, task, idx).maxWalltime == DefaultWalltime <==> task.maxWalltime.None? || task.maxWalltime.value in {0, DefaultWalltime}
    ensures task.maxWalltime.Some? && task.maxWalltime.value != 0 ==> MakeWork(cfg, files, task, idx).maxWalltime == task.maxWalltime.value
    ensures task.prodSourceLabel.Some? && task.prodSourceLabel.value != "" ==> MakeWork(cfg, files, task, idx).prodSourceLabel == task.prodSourceLabel.value
    ensures task.prodSourceLabel.None? || task.prodSourceLabel.value == "" ==>
      MakeWork(cfg, files, task, idx).prodSourceLabel == (if cfg.prodSourceLabel.Some? then cfg.prodSourceLabel.value else "test")
    ensures cfg.prodSourceLabel.None? || cfg.prodSourceLabel.value != "" ==> MakeWork(cfg, files, task, idx).prodSourceLabel != ""
  {
  }

  /** A fixed prefix followed by a decimal number names the number. */
  lemma PrefixedNumber(a: string, i: int, j: int)
    ensures a + IntToString(i) == a + IntToString(j) ==> i == j
  {
    if a + IntToString(i) == a + IntToString(j) {
      assert (a + IntToString(i))[|a|..] == IntToString(i);
      assert (a + IntToString(j))[|a|..] == IntToString(j);
      IntToStringInjective(i, j);
    }
  }

  /** Works at different positions have different input and different output
      collections, and no input collection is an output collection. */
  lemma CollectionsDistinct(i: nat, j: nat)
    ensures i != j ==> InputCollection(i) != InputCollection(j) && OutputCollection(i) != OutputCollection(j)
    ensures InputCollection(i) != OutputCollection(j)
  {
    PrefixedNumber("pseudo_input_collection#", i, j);
    PrefixedNumber("pseudo_output_collection#", i, j);
    assert InputCollection(i).name[8] != OutputCollection(j).name[8];
  }

  /** `AndCondition(conditions=[w.is_terminated for w in ends], true_works=[final])`,
      works named by their positions. */
  datatype Condition = AndCondition(terminated: seq<nat>, trueWorks: seq<nat>)

  datatype IddsWorkflow = IddsWorkflow(name: string, works: seq<Work>, conditions: seq<Condition>)

  /** `DAG_final_work`: the position of the last final task. */
  function LastFinal(tasks: seq<GeneratedTask>): Option<nat>
    decreases |tasks|
  {
    if |tasks| == 0 then None
    else if tasks[|tasks| - 1].isFinal then Some(|tasks| - 1)
    else LastFinal(tasks[..|tasks| - 1])
  }

  /** `DAG_end_work`: the positions of the DAG-end tasks, in order. */
  function DagEnds(tasks: seq<GeneratedTask>): seq<nat>
    decreases |tasks|
  {
    if |tasks| == 0 then []
    else DagEnds(tasks[..|tasks| - 1]) + (if tasks[|tasks| - 1].isDagEnd then [|tasks| - 1] else [])
  }

  /** The conditions added to the workflow: one AND condition when some task
      is final, none otherwise. */
  function WorkflowConditions(tasks: seq<GeneratedTask>): seq<Condition> {
    var final := LastFinal(tasks);
    if final.Some? then [AndCondition(DagEnds(tasks), [final.value])] else []
  }

  /** There is a final work iff some task is final, and it is the last one. */
  lemma {:induction false} LastFinalSpec(tasks: seq<GeneratedTask>)
    ensures LastFinal(tasks).Some? <==> exists i :: 0 <= i < |tasks| && tasks[i].isFinal
    ensures LastFinal(tasks).Some? ==>
      var f := LastFinal(tasks).value;
      f < |tasks| && tasks[f].isFinal && forall i :: f < i < |tasks| ==> !tasks[i].isFinal
    decreases |tasks|
  {
    if |tasks| > 0 {
      var n := |tasks| - 1;
      var init := tasks[..n];
      LastFinalSpec(init);
      assert forall i :: 0 <= i < n ==> init[i] == tasks[i];
      if !tasks[n].isFinal && exists i :: 0 <= i < |tasks| && tasks[i].isFinal {
        var i :| 0 <= i < |tasks| && tasks[i].isFinal;
        assert init[i].isFinal;
      }
    }
  }

  /** The conditions are exactly the DAG-end works, each once, in order. */
  lemma {:induction false} DagEndsSpec(tasks: seq<GeneratedTask>)
    ensures forall i: nat :: i in DagEnds(tasks) <==> i < |tasks| && tasks[i].isDagEnd
    ensures forall a, b :: 0 <= a < b < |DagEnds(tasks)| ==> DagEnds(tasks)[a] < DagEnds(tasks)[b]
    decreases |tasks|
  {
    if |tasks| > 0 {
      var n := |tasks| - 1;
      var init := tasks[..n];
      DagEndsSpec(init);
      assert forall i :: 0 <= i < n ==> init[i] == tasks[i];
      var ends := DagEnds(tasks);
      var prev := DagEnds(init);
      forall a | 0 <= a < |prev|
        ensures prev[a] < n
      {
        assert prev[a] in prev;
      }
      assert ends == prev + (if tasks[n].isDagEnd then [n] else []);
    }
  }

  lemma FinalStep(tasks: seq<GeneratedTask>, idx: nat)
    requires idx < |tasks|
    ensures LastFinal(tasks[..idx + 1]) == if tasks[idx].isFinal then Some(idx) else LastFinal(tasks[..idx])
    ensures DagEnds(tasks[..idx + 1]) == DagEnds(tasks[..idx]) + if tasks[idx].isDagEnd then [idx] else []
  {
    assert tasks[..idx + 1][..idx] == tasks[..idx];
  }

  /** `if DAG_final_work:` the AND condition over the `is_terminated` of the
      DAG-end works, with the final work as its true work. */
  method FinalCondition(dagEndWork: seq<nat>, dagFinalWork: Option<nat>) returns (conditions: seq<Condition>)
    ensures dagFinalWork.None? ==> conditions == []
    ensures dagFinalWork.Some? ==> conditions == [AndCondition(dagEndWork, [dagFinalWork.value])]
  {
    conditions := [];
    if dagFinalWork.Some? {
      var terminated: seq<nat> := [];
      for k := 0 to |dagEndWork|
        invariant terminated == dagEndWork[..k]
      {
        terminated := terminated + [dagEndWork[k]];
      }
      assert terminated == dagEndWork;
      conditions := conditions + [AndCondition(terminated, [dagFinalWork.value])];
    }
  }

  /** `[f(xs[0], 0), ..., f(xs[n - 1], n - 1)]`. */
  function MapIndexed<X, Y>(f: (X, nat) -> Y, xs: seq<X>, n: nat): (r: seq<Y>)
    requires n <= |xs|
  {
    if n == 0 then [] else MapIndexed(f, xs, n - 1) + [f(xs[n - 1], n - 1)]
  }

  lemma {:induction false} MapIndexedItems<X, Y>(f: (X, nat) -> Y, xs: seq<X>, n: nat)
    requires n <= |xs|
    ensures |MapIndexed(f, xs, n)| == n
    ensures forall i :: 0 <= i < n ==> MapIndexed(f, xs, n)[i] == f(xs[i], i)
  {
    if n > 0 {
      MapIndexedItems(f, xs, n - 1);
    }
  }

  /** The loop of `submit`: one work per task, in order, remembering the last
      final work and the DAG-end works, then the AND condition when there is
      a final work. */
  method BuildWorkflow(name: string, tasks: seq<GeneratedTask>, cfg: SubmitConfig, files: DistributionFiles)
    returns (wf: IddsWorkflow)
    requires files.placeholders.Valid()
    ensures wf.name == name
    ensures |wf.works| == |tasks|
    ensures forall i :: 0 <= i < |tasks| ==> wf.works[i] == MakeWork(cfg, files, tasks[i], i)
    ensures wf.conditions == WorkflowConditions(tasks)
  {
    ghost var makeWork := (task: GeneratedTask, i: nat) => MakeWork(cfg, files, task, i);
    var works: seq<Work> := [];
    var dagEndWork: seq<nat> := [];
    var dagFinalWork: Option<nat> := None;
    for idx := 0 to |tasks|
      invariant works == MapIndexed(makeWork, tasks, idx)
      invariant dagFinalWork == LastFinal(tasks[..idx])
      invariant dagEndWork == DagEnds(tasks[..idx])
    {
      var task := tasks[idx];
      var work := MakeWork(cfg, files, task, idx);
      assert makeWork(task, idx) == work;
      works := works + [work];
      if task.isFinal {
        dagFinalWork := Some(idx);
      }
      if task.isDagEnd {
        dagEndWork := dagEndWork + [idx];
      }
      FinalStep(tasks, idx);
    }
    assert tasks[..|tasks|] == tasks;
    MapIndexedItems(makeWork, tasks, |tasks|);
    var conditions := FinalCondition(dagEndWork, dagFinalWork);
    wf := IddsWorkflow(name, works, conditions);
  }

  /** The BPS workflow handed to `submit`: its name and generated tasks, and
      the run id `submit` sets. */
  class BpsWorkflow {
    const name: string
    const generatedTasks: seq<GeneratedTask>
    var runId: Option<int>

    constructor(name: string, generatedTasks: seq<GeneratedTask>)
      ensures this.name == name && this.generatedTasks == generatedTasks && runId == None
    {
      this.name := name;
      this.generatedTasks := generatedTasks;
      runId := None;
    }
  }

  /** `submit`. The client's reply `ret` is an input. The workflow sent is
      built from the distribution files; the run id becomes `int(ret[1][-1])`
      when the reply is accepted, and otherwise the error is raised and the
      run id is left as it was. */
  method Submit(workflow: BpsWorkflow, cfg: SubmitConfig, dirs: set<string>, ret: Value)
    returns (files: DistributionFiles, sent: IddsWorkflow, r: Result<()>)
    modifies workflow
    ensures files.placeholders == PlaceholderMap(CollectPfns(workflow.generatedTasks).localPfns, dirs)
    ensures forall x :: x in files.directIo <==> x in WithDefaultDirectIo(CollectPfns(workflow.generatedTasks).directIo)
    ensures sent.name == workflow.name && |sent.works| == |workflow.generatedTasks|
    ensures forall i :: 0 <= i < |sent.works| ==> sent.works[i] == MakeWork(cfg, files, workflow.generatedTasks[i], i)
    ensures sent.conditions == WorkflowConditions(workflow.generatedTasks)
    ensures r.Ok? <==> SubmitRequestId(ret).Ok?
    ensures r.Ok? ==> workflow.runId == Some(SubmitRequestId(ret).value)
    ensures r.Err? ==> r.error == SubmitRequestId(ret).error && workflow.runId == old(workflow.runId)
  {
    files := CopyFilesForDistribution(workflow.generatedTasks, dirs);
    sent := BuildWorkflow(workflow.name, workflow.generatedTasks, cfg, files);
    var requestId := SubmitRequestId(ret);
    if requestId.Err? {
      return files, sent, Err(requestId.error);
    }
    workflow.runId := Some(requestId.value);
    r := Ok(());
  }
}
