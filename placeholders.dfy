/** The placeholder syntax both edge-node decoders share: the `<TAG:name>`
    placeholders found with `re.findall("<TAG:(.*?)>", cmd_line)`, their
    substitution, the `key:value` segments of the `+`-separated argument lists,
    and the `{key}` substitution of the data parameters. */
module Placeholders {
  import opened Common
  import opened Text

  function Opening(tag: string): string {
    "<" + tag + ":"
  }

  function Placeholder(tag: string, name: string): (p: string)
    ensures |p| > 0
  {
    "<" + tag + ":" + name + ">"
  }

  // ---------------------------------------------------------------------------
  // re.findall("<TAG:(.*?)>", s)
  // ---------------------------------------------------------------------------

  /** Where the lazy `(.*?)>` that starts at `i` ends: the first `>` from `i` on,
      unless a newline (which `.` does not match) or the end comes first. */
  function CloseIndex(s: string, i: nat): (r: Option<nat>)
    ensures r.Some? ==> i <= r.value < |s| && s[r.value] == '>'
    ensures r.Some? ==> forall k :: i <= k < r.value ==> s[k] != '>' && s[k] != '\n'
    decreases |s| - i
  {
    if i >= |s| then None
    else if s[i] == '>' then Some(i)
    else if s[i] == '\n' then None
    else CloseIndex(s, i + 1)
  }

  /** The groups `re.findall` returns: scanning left to right, a match at the
      current position consumes it, a failed attempt moves one character on. */
  function FindFrom(s: string, open: string): (names: seq<string>)
    requires |open| > 0
    ensures forall k :: 0 <= k < |names| ==> '>' !in names[k] && '\n' !in names[k]
    decreases |s|
  {
    if |s| < |open| then []
    else if s[..|open|] == open then
      match CloseIndex(s, |open|)
      case Some(j) =>
        assert forall c :: c in s[|open|..j] ==> c != '>' && c != '\n';
        [s[|open|..j]] + FindFrom(s[j + 1..], open)
      case None => FindFrom(s[1..], open)
    else FindFrom(s[1..], open)
  }

  /** The placeholder names of `tag` in `s`, in order of appearance. */
  function FindPlaceholders(s: string, tag: string): seq<string> {
    FindFrom(s, Opening(tag))
  }

  lemma OccursAtSuffix(s: string, d: nat, p: string, i: int)
    requires d <= |s| && OccursAt(s[d..], p, i)
    ensures OccursAt(s, p, i + d)
  {
    assert s[i + d..i + d + |p|] == s[d..][i..i + |p|];
  }

  lemma OccursInSuffix(s: string, d: nat, p: string)
    requires d <= |s| && Occurs(p, s[d..])
    ensures Occurs(p, s)
  {
    var i :| 0 <= i <= |s[d..]| - |p| && OccursAt(s[d..], p, i);
    OccursAtSuffix(s, d, p, i);
  }

  /** Every name found stands, as a whole `<TAG:name>` placeholder, in the text. */
  lemma {:induction false} FoundPlaceholdersOccur(s: string, open: string)
    requires |open| > 0
    ensures forall k :: 0 <= k < |FindFrom(s, open)| ==> Occurs(open + FindFrom(s, open)[k] + ">", s)
    decreases |s|
  {
    var names := FindFrom(s, open);
    if |s| < |open| {
    } else if s[..|open|] == open && CloseIndex(s, |open|).Some? {
      var j := CloseIndex(s, |open|).value;
      var rest := FindFrom(s[j + 1..], open);
      FoundPlaceholdersOccur(s[j + 1..], open);
      assert names == [s[|open|..j]] + rest;
      forall k | 0 <= k < |names| ensures Occurs(open + names[k] + ">", s) {
        var p := open + names[k] + ">";
        if k == 0 {
          assert s[0..j + 1] == s[..|open|] + s[|open|..j] + [s[j]];
          assert OccursAt(s, p, 0);
        } else {
          assert names[k] == rest[k - 1];
          assert Occurs(p, s[j + 1..]);
          OccursInSuffix(s, j + 1, p);
        }
      }
    } else {
      var rest := FindFrom(s[1..], open);
      assert names == rest;
      FoundPlaceholdersOccur(s[1..], open);
      forall k | 0 <= k < |names| ensures Occurs(open + names[k] + ">", s) {
        var p := open + names[k] + ">";
        assert names[k] == rest[k];
        assert Occurs(p, s[1..]);
        OccursInSuffix(s, 1, p);
      }
    }
  }

  /** A text without any `<TAG:` yields no placeholder names. */
  lemma {:induction false} NoOpeningNoPlaceholders(s: string, open: string)
    requires |open| > 0 && !Occurs(open, s)
    ensures FindFrom(s, open) == []
    decreases |s|
  {
    if |s| >= |open| {
      assert !OccursAt(s, open, 0);
      AbsentFromTail(open, s);
      NoOpeningNoPlaceholders(s[1..], open);
    }
  }

  lemma {:induction false} CloseIndexAt(s: string, i: nat, j: nat)
    requires i <= j < |s| && s[j] == '>'
    requires forall k :: i <= k < j ==> s[k] != '>' && s[k] != '\n'
    ensures CloseIndex(s, i) == Some(j)
    decreases j - i
  {
    if i < j {
      CloseIndexAt(s, i + 1, j);
    }
  }

  /** A lone `<TAG:name>` yields exactly `name`, whatever characters other
      than `>` and newline the name holds. */
  lemma PlaceholderFound(tag: string, name: string)
    requires '>' !in name && '\n' !in name
    ensures FindPlaceholders(Placeholder(tag, name), tag) == [name]
  {
    var s := Placeholder(tag, name);
    var open := Opening(tag);
    var j := |open| + |name|;
    assert s == open + name + ">";
    assert s[..|open|] == open;
    assert s[|open|..j] == name;
    forall k | |open| <= k < j ensures s[k] != '>' && s[k] != '\n' {
      assert s[k] == name[k - |open|];
    }
    CloseIndexAt(s, |open|, j);
    assert s[j + 1..] == [];
    assert FindFrom(s[j + 1..], open) == [];
    assert FindFrom(s, open) == [s[|open|..j]] + FindFrom(s[j + 1..], open);
  }

  // ---------------------------------------------------------------------------
  // Substituting the found placeholders
  // ---------------------------------------------------------------------------

  function MissingReplacement(name: string): Error {
    ValueError("ValueError exception thrown, because " + name
      + " is not found in the replacement values and could not be passed to the command line")
  }

  /** The text after replacing, name after name, every `<TAG:name>` by its
      replacement; the first name without a replacement raises. */
  function Substitute(cmdLine: string, tag: string, names: seq<string>, replacements: map<string, string>): Result<string>
    decreases |names|
  {
    if |names| == 0 then Ok(cmdLine)
    else if names[0] !in replacements then Err(MissingReplacement(names[0]))
    else Substitute(ReplaceAll(cmdLine, Placeholder(tag, names[0]), replacements[names[0]]), tag, names[1..], replacements)
  }

  /** The index of the first name without a replacement, `|names|` if none. */
  function FirstMissing(names: seq<string>, replacements: map<string, string>): (k: nat)
    ensures k <= |names|
    ensures forall j :: 0 <= j < k ==> names[j] in replacements
    ensures k < |names| ==> names[k] !in replacements
    decreases |names|
  {
    if |names| == 0 || names[0] !in replacements then 0
    else
      var k := FirstMissing(names[1..], replacements);
      assert forall j :: 1 <= j < k + 1 ==> names[j] == names[1..][j - 1];
      k + 1
  }

  /** Names up to `k` are replaced, and `names[k]` raises. */
  lemma {:induction false} SubstituteStopsAt(cmdLine: string, tag: string, names: seq<string>, replacements: map<string, string>, k: nat)
    requires k < |names| && names[k] !in replacements
    requires forall j :: 0 <= j < k ==> names[j] in replacements
    ensures Substitute(cmdLine, tag, names, replacements) == Err(MissingReplacement(names[k]))
    decreases k
  {
    if k > 0 {
      var next := ReplaceAll(cmdLine, Placeholder(tag, names[0]), replacements[names[0]]);
      assert forall j :: 0 <= j < k - 1 ==> names[1..][j] == names[j + 1];
      SubstituteStopsAt(next, tag, names[1..], replacements, k - 1);
    }
  }

  /** With every name replaceable, the substitution succeeds. */
  lemma {:induction false} SubstituteSucceeds(cmdLine: string, tag: string, names: seq<string>, replacements: map<string, string>)
    requires forall j :: 0 <= j < |names| ==> names[j] in replacements
    ensures Substitute(cmdLine, tag, names, replacements).Ok?
    decreases |names|
  {
    if |names| > 0 {
      var next := ReplaceAll(cmdLine, Placeholder(tag, names[0]), replacements[names[0]]);
      assert forall j :: 0 <= j < |names| - 1 ==> names[1..][j] == names[j + 1];
      SubstituteSucceeds(next, tag, names[1..], replacements);
    }
  }

  /** The substitution fails exactly when some name has no replacement, and
      then with the error for the first such name. */
  lemma SubstituteFailsIffMissing(cmdLine: string, tag: string, names: seq<string>, replacements: map<string, string>)
    ensures Substitute(cmdLine, tag, names, replacements).Err?
        <==> exists k :: 0 <= k < |names| && names[k] !in replacements
    ensures Substitute(cmdLine, tag, names, replacements).Err? ==>
        exists k :: 0 <= k < |names| && names[k] !in replacements
          && (forall j :: 0 <= j < k ==> names[j] in replacements)
          && Substitute(cmdLine, tag, names, replacements).error == MissingReplacement(names[k])
  {
    var k := FirstMissing(names, replacements);
    if k < |names| {
      SubstituteStopsAt(cmdLine, tag, names, replacements, k);
    } else {
      SubstituteSucceeds(cmdLine, tag, names, replacements);
    }
  }

  /** `replace_placeholders`: the names are fixed from the text as it was before
      any replacement, then replaced one after the other. */
  method ReplacePlaceholders(cmdLine: string, tag: string, replacements: map<string, string>) returns (r: Result<string>)
    ensures r == Substitute(cmdLine, tag, FindPlaceholders(cmdLine, tag), replacements)
    ensures r.Err? <==> exists k :: 0 <= k < |FindPlaceholders(cmdLine, tag)| && FindPlaceholders(cmdLine, tag)[k] !in replacements
    ensures !Occurs(Opening(tag), cmdLine) ==> r == Ok(cmdLine)
  {
    if !Occurs(Opening(tag), cmdLine) {
      NoOpeningNoPlaceholders(cmdLine, Opening(tag));
    }
    var found := FindPlaceholders(cmdLine, tag);
    var cmd := cmdLine;
    var i := 0;
    while i < |found|
      invariant 0 <= i <= |found|
      invariant Substitute(cmd, tag, found[i..], replacements) == Substitute(cmdLine, tag, found, replacements)
    {
      var placeholder := found[i];
      assert found[i..][1..] == found[i + 1..];
      if placeholder in replacements {
        cmd := ReplaceAll(cmd, Placeholder(tag, placeholder), replacements[placeholder]);
      } else {
        SubstituteFailsIffMissing(cmdLine, tag, found, replacements);
        return Err(MissingReplacement(placeholder));
      }
      i := i + 1;
    }
    r := Ok(cmd);
    SubstituteFailsIffMissing(cmdLine, tag, found, replacements);
  }

  /** A lone placeholder becomes its replacement, or raises when its name has none. */
  lemma ReplaceSinglePlaceholder(tag: string, name: string, replacements: map<string, string>)
    requires '>' !in name && '\n' !in name
    ensures var r := Substitute(Placeholder(tag, name), tag, FindPlaceholders(Placeholder(tag, name), tag), replacements);
      && (name in replacements ==> r == Ok(replacements[name]))
      && (name !in replacements ==> r == Err(MissingReplacement(name)))
  {
    PlaceholderFound(tag, name);
    var p := Placeholder(tag, name);
    if name in replacements {
      assert p[..|p|] == p;
      assert p[|p|..] == [];
      assert ReplaceAll(p, p, replacements[name]) == replacements[name] + ReplaceAll([], p, replacements[name]);
      assert ReplaceAll(p, p, replacements[name]) == replacements[name];
      assert [name][1..] == [];
      assert Substitute(p, tag, [name], replacements) == Substitute(replacements[name], tag, [], replacements);
    }
  }

  // ---------------------------------------------------------------------------
  // `key:value` segments
  // ---------------------------------------------------------------------------

  /** `key, value = segment.split(":")`: exactly one `:` is required. */
  function ParsePair(segment: string): (r: Result<(string, string)>)
    ensures r.Ok? ==> ':' !in r.value.0 && ':' !in r.value.1
    ensures r.Ok? ==> segment == r.value.0 + ":" + r.value.1
  {
    var kv := Split(segment, ':');
    JoinSplit(segment, ':');
    if |kv| < 2 then Err(ValueError("not enough values to unpack (expected 2, got 1)"))
    else if |kv| > 2 then Err(ValueError("too many values to unpack (expected 2)"))
    else Ok((kv[0], kv[1]))
  }

  /** `key:value` reads back as the pair when neither part contains `:`. */
  lemma PairRoundTrip(key: string, value: string)
    requires ':' !in key && ':' !in value
    ensures ParsePair(key + ":" + value) == Ok((key, value))
  {
    SplitFreePrefix(key, value, ':');
    SplitFreePrefix(value, "", ':');
  }

  /** The dictionary built by `files[key] = value` for each segment in turn. */
  function KeyValueMap(acc: map<string, string>, segments: seq<string>): Result<map<string, string>>
    decreases |segments|
  {
    if |segments| == 0 then Ok(acc)
    else
      var kv :- ParsePair(segments[0]);
      KeyValueMap(acc[kv.0 := kv.1], segments[1..])
  }

  /** The key/value map of a `k1:v1+k2:v2...` argument. */
  function FileMap(files: string): Result<map<string, string>> {
    KeyValueMap(map[], Split(files, '+'))
  }

  /** The loop at the start of `replace_files_placeholders` and `replace_event_file`. */
  method ParseFiles(files: string) returns (r: Result<map<string, string>>)
    ensures r == FileMap(files)
  {
    var segments := Split(files, '+');
    var m: map<string, string> := map[];
    var i := 0;
    while i < |segments|
      invariant 0 <= i <= |segments|
      invariant KeyValueMap(m, segments[i..]) == FileMap(files)
    {
      assert segments[i..][1..] == segments[i + 1..];
      var kv := ParsePair(segments[i]);
      if kv.Err? {
        return Err(kv.error);
      }
      m := m[kv.value.0 := kv.value.1];
      i := i + 1;
    }
    return Ok(m);
  }

  /** The map is built exactly when every segment has one `:`. */
  lemma {:induction false} KeyValueMapOkIff(acc: map<string, string>, segments: seq<string>)
    ensures KeyValueMap(acc, segments).Ok? <==> forall k :: 0 <= k < |segments| ==> ParsePair(segments[k]).Ok?
    decreases |segments|
  {
    if |segments| > 0 && ParsePair(segments[0]).Ok? {
      var kv := ParsePair(segments[0]).value;
      KeyValueMapOkIff(acc[kv.0 := kv.1], segments[1..]);
      assert forall k :: 1 <= k < |segments| ==> segments[1..][k - 1] == segments[k];
    }
  }

  /** Its keys are the earlier keys and the keys of the segments; a key's value
      is the one of its last segment, a later duplicate overwriting an earlier one. */
  lemma KeyValueMapContents(acc: map<string, string>, segments: seq<string>, m: map<string, string>)
    requires KeyValueMap(acc, segments) == Ok(m)
    ensures forall k :: 0 <= k < |segments| ==> ParsePair(segments[k]).Ok?
    ensures forall key :: key in m <==> key in acc || exists k :: 0 <= k < |segments| && ParsePair(segments[k]).value.0 == key
    ensures forall k :: 0 <= k < |segments| ==>
      ((forall j :: k < j < |segments| ==> ParsePair(segments[j]).value.0 != ParsePair(segments[k]).value.0) ==>
         m[ParsePair(segments[k]).value.0] == ParsePair(segments[k]).value.1)
    ensures forall key :: key in acc && (forall k :: 0 <= k < |segments| ==> ParsePair(segments[k]).value.0 != key) ==> m[key] == acc[key]
  {
    KeyValueMapOkIff(acc, segments);
    KeyValueMapKeys(acc, segments, m);
    KeyValueMapLast(acc, segments, m);
    KeyValueMapKept(acc, segments, m);
  }

  /** The step of the loop: the first pair goes into the accumulator. */
  lemma KeyValueMapStep(acc: map<string, string>, segments: seq<string>, m: map<string, string>)
    requires |segments| > 0 && KeyValueMap(acc, segments) == Ok(m)
    ensures ParsePair(segments[0]).Ok?
    ensures var kv := ParsePair(segments[0]).value; KeyValueMap(acc[kv.0 := kv.1], segments[1..]) == Ok(m)
    ensures forall k :: 0 <= k < |segments| - 1 ==> segments[1..][k] == segments[k + 1]
  {
  }

  lemma {:induction false} KeyValueMapKeys(acc: map<string, string>, segments: seq<string>, m: map<string, string>)
    requires KeyValueMap(acc, segments) == Ok(m)
    requires forall k :: 0 <= k < |segments| ==> ParsePair(segments[k]).Ok?
    ensures forall key :: key in m <==> key in acc || exists k :: 0 <= k < |segments| && ParsePair(segments[k]).value.0 == key
    decreases |segments|
  {
    if |segments| > 0 {
      KeyValueMapStep(acc, segments, m);
      var kv := ParsePair(segments[0]).value;
      var rest := segments[1..];
      KeyValueMapKeys(acc[kv.0 := kv.1], rest, m);
      forall key | key in m ensures key in acc || exists k :: 0 <= k < |segments| && ParsePair(segments[k]).value.0 == key {
        if key !in acc && key != kv.0 {
          var k :| 0 <= k < |rest| && ParsePair(rest[k]).value.0 == key;
          assert ParsePair(segments[k + 1]).value.0 == key;
        }
      }
      forall key | key in acc || exists k :: 0 <= k < |segments| && ParsePair(segments[k]).value.0 == key ensures key in m {
        if key !in acc && key != kv.0 {
          var k :| 0 <= k < |segments| && ParsePair(segments[k]).value.0 == key;
          assert k != 0;
          assert ParsePair(rest[k - 1]).value.0 == key;
        }
      }
    }
  }

  lemma {:induction false} KeyValueMapKept(acc: map<string, string>, segments: seq<string>, m: map<string, string>)
    requires KeyValueMap(acc, segments) == Ok(m)
    requires forall k :: 0 <= k < |segments| ==> ParsePair(segments[k]).Ok?
    ensures forall key :: key in acc && (forall k :: 0 <= k < |segments| ==> ParsePair(segments[k]).value.0 != key) ==> key in m && m[key] == acc[key]
    decreases |segments|
  {
    if |segments| > 0 {
      KeyValueMapStep(acc, segments, m);
      var kv := ParsePair(segments[0]).value;
      KeyValueMapKept(acc[kv.0 := kv.1], segments[1..], m);
    }
  }

  lemma {:induction false} KeyValueMapLast(acc: map<string, string>, segments: seq<string>, m: map<string, string>)
    requires KeyValueMap(acc, segments) == Ok(m)
    requires forall k :: 0 <= k < |segments| ==> ParsePair(segments[k]).Ok?
    ensures forall k :: 0 <= k < |segments| ==>
      ((forall j :: k < j < |segments| ==> ParsePair(segments[j]).value.0 != ParsePair(segments[k]).value.0) ==>
         ParsePair(segments[k]).value.0 in m && m[ParsePair(segments[k]).value.0] == ParsePair(segments[k]).value.1)
    decreases |segments|
  {
    if |segments| > 0 {
      KeyValueMapStep(acc, segments, m);
      var kv := ParsePair(segments[0]).value;
      var rest := segments[1..];
      forall k | 0 <= k < |segments| &&
        (forall j :: k < j < |segments| ==> ParsePair(segments[j]).value.0 != ParsePair(segments[k]).value.0)
        ensures ParsePair(segments[k]).value.0 in m && m[ParsePair(segments[k]).value.0] == ParsePair(segments[k]).value.1
      {
        if k > 0 {
          assert segments[k] == rest[k - 1];
          assert forall j :: k - 1 < j < |rest| ==> ParsePair(rest[j]).value.0 != ParsePair(rest[k - 1]).value.0 by {
            forall j | k - 1 < j < |rest| ensures ParsePair(rest[j]).value.0 != ParsePair(rest[k - 1]).value.0 {
              assert rest[j] == segments[j + 1];
            }
          }
          KeyValueMapLast(acc[kv.0 := kv.1], rest, m);
        } else {
          assert forall j :: 0 <= j < |rest| ==> ParsePair(rest[j]).value.0 != kv.0 by {
            forall j | 0 <= j < |rest| ensures ParsePair(rest[j]).value.0 != kv.0 {
              assert rest[j] == segments[j + 1];
            }
          }
          KeyValueMapKept(acc[kv.0 := kv.1], rest, m);
        }
      }
    }
  }

  // ---------------------------------------------------------------------------
  // `{key}` substitution of the data parameters
  // ---------------------------------------------------------------------------

  /** Each `key:value` parameter in turn replaces every `{key}` by `value`. */
  function KeyValueSubst(cmdLine: string, params: seq<string>): Result<string>
    decreases |params|
  {
    if |params| == 0 then Ok(cmdLine)
    else
      var kv :- ParsePair(params[0]);
      KeyValueSubst(ReplaceAll(cmdLine, "{" + kv.0 + "}", kv.1), params[1..])
  }

  /** The loop over `data_params[1:]` that ends both decoders. */
  method SubstituteKeyValues(cmdLine: string, params: seq<string>) returns (r: Result<string>)
    ensures r == KeyValueSubst(cmdLine, params)
    ensures r.Ok? <==> forall k :: 0 <= k < |params| ==> ParsePair(params[k]).Ok?
  {
    var cmd := cmdLine;
    var i := 0;
    while i < |params|
      invariant 0 <= i <= |params|
      invariant KeyValueSubst(cmd, params[i..]) == KeyValueSubst(cmdLine, params)
    {
      assert params[i..][1..] == params[i + 1..];
      var kv := ParsePair(params[i]);
      if kv.Err? {
        KeyValueSubstOkIff(cmdLine, params);
        return Err(kv.error);
      }
      cmd := ReplaceAll(cmd, "{" + kv.value.0 + "}", kv.value.1);
      i := i + 1;
    }
    KeyValueSubstOkIff(cmdLine, params);
    return Ok(cmd);
  }

  lemma {:induction false} KeyValueSubstOkIff(cmdLine: string, params: seq<string>)
    ensures KeyValueSubst(cmdLine, params).Ok? <==> forall k :: 0 <= k < |params| ==> ParsePair(params[k]).Ok?
    decreases |params|
  {
    if |params| > 0 && ParsePair(params[0]).Ok? {
      var kv := ParsePair(params[0]).value;
      KeyValueSubstOkIff(ReplaceAll(cmdLine, "{" + kv.0 + "}", kv.1), params[1..]);
      assert forall k :: 1 <= k < |params| ==> params[1..][k - 1] == params[k];
    }
  }

  /** A command line without `{` is left as it is by well-formed parameters. */
  lemma {:induction false} KeyValueSubstNoBraces(cmdLine: string, params: seq<string>)
    requires '{' !in cmdLine
    requires forall k :: 0 <= k < |params| ==> ParsePair(params[k]).Ok?
    ensures KeyValueSubst(cmdLine, params) == Ok(cmdLine)
    decreases |params|
  {
    if |params| > 0 {
      var kv := ParsePair(params[0]).value;
      var p := "{" + kv.0 + "}";
      forall i | 0 <= i <= |cmdLine| - |p| ensures !OccursAt(cmdLine, p, i) {
        assert cmdLine[i] != '{';
        assert cmdLine[i..i + |p|][0] == cmdLine[i];
      }
      ReplaceAbsent(cmdLine, p, kv.1);
      KeyValueSubstNoBraces(cmdLine, params[1..]);
    }
  }

  /** A single `key:value` parameter replaces every `{key}` by `value`. */
  lemma KeyValueSubstReplaced(cmdLine: string, key: string, value: string)
    requires ':' !in key && ':' !in value
    ensures KeyValueSubst(cmdLine, [key + ":" + value]) == Ok(ReplaceAll(cmdLine, "{" + key + "}", value))
  {
    PairRoundTrip(key, value);
    assert [key + ":" + value][1..] == [];
  }
}
