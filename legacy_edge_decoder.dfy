/** The edge-node decoder of the legacy plugin
    (`python/lsst/ctrl/bps/wms/panda/edgenode/cmd_line_decoder.py`): the hexed
    command line is decoded, the `<ENV:...>` placeholders whose variable is set
    are substituted, `<FILE:runQgraphFile>` becomes the first data parameter and
    each later `key:value` parameter fills its `{key}`. The environment is a
    parameter and the command line is returned instead of being printed. */
module LegacyEdgeDecoder {
  import opened Common
  import opened Text
  import opened Codec
  import opened Placeholders

  /** `os.getenv(name)` is truthy: set and non-empty. */
  predicate IsSet(env: map<string, string>, name: string) {
    name in env && env[name] != ""
  }

  /** Each found name in turn: a set variable replaces every `<ENV:name>`, an
      unset or empty one leaves the text alone. */
  function EnvSubst(cmdLine: string, names: seq<string>, env: map<string, string>): string
    decreases |names|
  {
    if |names| == 0 then cmdLine
    else if IsSet(env, names[0]) then EnvSubst(ReplaceAll(cmdLine, Placeholder("ENV", names[0]), env[names[0]]), names[1..], env)
    else EnvSubst(cmdLine, names[1..], env)
  }

  /** `replace_environment_vars`: never raises. */
  method ReplaceEnvironmentVars(cmdLine: string, env: map<string, string>) returns (r: string)
    ensures r == EnvSubst(cmdLine, FindPlaceholders(cmdLine, "ENV"), env)
  {
    var found := FindPlaceholders(cmdLine, "ENV");
    r := cmdLine;
    var i := 0;
    while i < |found|
      invariant 0 <= i <= |found|
      invariant EnvSubst(r, found[i..], env) == EnvSubst(cmdLine, found, env)
    {
      assert found[i..][1..] == found[i + 1..];
      var name := found[i];
      if IsSet(env, name) {
        r := ReplaceAll(r, Placeholder("ENV", name), env[name]);
      }
      i := i + 1;
    }
  }

  /** Names whose variable is unset or empty change nothing. */
  lemma {:induction false} EnvSubstUnset(cmdLine: string, names: seq<string>, env: map<string, string>)
    requires forall k :: 0 <= k < |names| ==> !IsSet(env, names[k])
    ensures EnvSubst(cmdLine, names, env) == cmdLine
    decreases |names|
  {
    if |names| > 0 {
      assert forall k :: 1 <= k < |names| ==> names[1..][k - 1] == names[k];
      EnvSubstUnset(cmdLine, names[1..], env);
    }
  }

  /** A command line without `<ENV:` is unchanged. */
  lemma NoEnvPlaceholders(cmdLine: string, env: map<string, string>)
    requires !Occurs(Opening("ENV"), cmdLine)
    ensures EnvSubst(cmdLine, FindPlaceholders(cmdLine, "ENV"), env) == cmdLine
  {
    NoOpeningNoPlaceholders(cmdLine, Opening("ENV"));
  }

  /** Where every found variable is set, the legacy substitution and the
      current decoder's (which raises on an unknown name) agree. */
  lemma {:induction false} AgreesWithStrictSubstitution(cmdLine: string, names: seq<string>, env: map<string, string>)
    requires forall k :: 0 <= k < |names| ==> IsSet(env, names[k])
    ensures Substitute(cmdLine, "ENV", names, env) == Ok(EnvSubst(cmdLine, names, env))
    decreases |names|
  {
    if |names| > 0 {
      assert forall k :: 1 <= k < |names| ==> names[1..][k - 1] == names[k];
      AgreesWithStrictSubstitution(ReplaceAll(cmdLine, Placeholder("ENV", names[0]), env[names[0]]), names[1..], env);
    }
  }

  /** A lone `<ENV:name>` becomes the variable's value when it is set, and
      stays in place otherwise. */
  lemma SingleEnvPlaceholder(name: string, env: map<string, string>)
    requires '>' !in name && '\n' !in name
    ensures IsSet(env, name) ==> EnvSubst(Placeholder("ENV", name), FindPlaceholders(Placeholder("ENV", name), "ENV"), env) == env[name]
    ensures !IsSet(env, name) ==> EnvSubst(Placeholder("ENV", name), FindPlaceholders(Placeholder("ENV", name), "ENV"), env) == Placeholder("ENV", name)
  {
    PlaceholderFound("ENV", name);
    ReplaceSinglePlaceholder("ENV", name, env);
    if IsSet(env, name) {
      AgreesWithStrictSubstitution(Placeholder("ENV", name), [name], env);
    } else {
      EnvSubstUnset(Placeholder("ENV", name), [name], env);
    }
  }

  const QgraphPlaceholder: string := "<FILE:runQgraphFile>"

  /** The command line the legacy decoder prints for `decoder <hex> <data params>`. */
  function LegacyDecoderRun(hexArg: string, dataParams: string, env: map<string, string>): Result<string> {
    var decoded :- DecodeHexCommandLine(hexArg);
    var params := Split(dataParams, '+');
    var withEnv := EnvSubst(decoded, FindPlaceholders(decoded, "ENV"), env);
    KeyValueSubst(ReplaceAll(withEnv, QgraphPlaceholder, params[0]), params[1..])
  }

  /** The module body (lines 30-37). */
  method RunLegacyDecoder(hexArg: string, dataParams: string, env: map<string, string>) returns (r: Result<string>)
    ensures r == LegacyDecoderRun(hexArg, dataParams, env)
  {
    var decoded := DecodeHexCommandLine(hexArg);
    if decoded.Err? {
      return Err(decoded.error);
    }
    var params := Split(dataParams, '+');
    var cmdLine := ReplaceEnvironmentVars(decoded.value, env);
    cmdLine := ReplaceAll(cmdLine, QgraphPlaceholder, params[0]);
    r := SubstituteKeyValues(cmdLine, params[1..]);
  }

  /** The decoder fails exactly when the argument is not the hex of UTF-8 text
      or a later data parameter lacks exactly one `:`. */
  lemma LegacyDecoderOkIff(hexArg: string, dataParams: string, env: map<string, string>)
    ensures LegacyDecoderRun(hexArg, dataParams, env).Ok? <==>
      DecodeHexCommandLine(hexArg).Ok? &&
      forall k :: 1 <= k < |Split(dataParams, '+')| ==> ParsePair(Split(dataParams, '+')[k]).Ok?
  {
    var params := Split(dataParams, '+');
    if DecodeHexCommandLine(hexArg).Ok? {
      var decoded := DecodeHexCommandLine(hexArg).value;
      var withEnv := EnvSubst(decoded, FindPlaceholders(decoded, "ENV"), env);
      KeyValueSubstOkIff(ReplaceAll(withEnv, QgraphPlaceholder, params[0]), params[1..]);
      assert forall k :: 1 <= k < |params| ==> params[1..][k - 1] == params[k];
    }
  }

  /** A hexed command line with no placeholder and no `{`, and a single data
      parameter, comes back as it was sent. */
  lemma LegacyDecoderTransparent(cmdLine: string, dataParam: string, env: map<string, string>)
    requires !Occurs(Opening("ENV"), cmdLine) && !Occurs(QgraphPlaceholder, cmdLine) && '{' !in cmdLine
    requires '+' !in dataParam
    ensures LegacyDecoderRun(ConvertExecStringToHex(cmdLine), dataParam, env) == Ok(cmdLine)
  {
    CommandLineRoundTrip(cmdLine);
    NoEnvPlaceholders(cmdLine, env);
    SplitFreePrefix(dataParam, "", '+');
    ReplaceAbsent(cmdLine, QgraphPlaceholder, dataParam);
    var params: seq<string> := [dataParam];
    assert params[1..] == [];
  }

  /** `<FILE:runQgraphFile>` is replaced, at every occurrence, by the first data
      parameter; with no later parameter that is the whole result. */
  lemma LegacyQgraphReplaced(cmdLine: string, qgraph: string, env: map<string, string>)
    requires !Occurs(Opening("ENV"), cmdLine)
    requires '+' !in qgraph
    ensures LegacyDecoderRun(ConvertExecStringToHex(cmdLine), qgraph, env) == Ok(ReplaceAll(cmdLine, QgraphPlaceholder, qgraph))
  {
    CommandLineRoundTrip(cmdLine);
    NoEnvPlaceholders(cmdLine, env);
    SplitFreePrefix(qgraph, "", '+');
    var params: seq<string> := [qgraph];
    assert params[1..] == [];
  }
}
