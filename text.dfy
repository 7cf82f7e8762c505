/** The Python string operations the modelled code relies on: `str.split` with a
    one-character separator, `str.join`, `str.replace`, `in` on strings,
    `os.path.basename`, and the decimal conversions `str(int)` and `int(str)`. */
module Text {
  import opened Common

  // ---------------------------------------------------------------------------
  // Substrings
  // ---------------------------------------------------------------------------

  /** `p` occurs in `s` starting at index `i`. */
  predicate OccursAt(s: string, p: string, i: int) {
    0 <= i && i + |p| <= |s| && s[i..i + |p|] == p
  }

  /** Python `p in s`. */
  predicate Occurs(p: string, s: string) {
    exists i | 0 <= i <= |s| - |p| :: OccursAt(s, p, i)
  }

  /** What does not occur in a text does not occur in its tail. */
  lemma AbsentFromTail(p: string, s: string)
    requires |s| > 0 && !Occurs(p, s)
    ensures !Occurs(p, s[1..])
  {
    forall i | 0 <= i <= |s[1..]| - |p| ensures !OccursAt(s[1..], p, i) {
      assert !OccursAt(s, p, i + 1);
      assert s[1..][i..i + |p|] == s[i + 1..i + 1 + |p|];
    }
  }

  // ---------------------------------------------------------------------------
  // split / join with a one-character separator
  // ---------------------------------------------------------------------------

  /** Python `s.split(sep)`: the pieces between the separators, always at least one. */
  function Split(s: string, sep: char): (parts: seq<string>)
    ensures |parts| >= 1
    ensures forall i :: 0 <= i < |parts| ==> sep !in parts[i]
    decreases |s|
  {
    if |s| == 0 then [""]
    else if s[0] == sep then [""] + Split(s[1..], sep)
    else
      var rest := Split(s[1..], sep);
      [[s[0]] + rest[0]] + rest[1..]
  }

  /** Python `sep.join(parts)`. */
  function Join(sep: string, parts: seq<string>): string {
    if |parts| == 0 then ""
    else if |parts| == 1 then parts[0]
    else parts[0] + sep + Join(sep, parts[1..])
  }

  lemma JoinConsHead(c: char, parts: seq<string>, sep: string)
    requires |parts| >= 1
    ensures Join(sep, [[c] + parts[0]] + parts[1..]) == [c] + Join(sep, parts)
  {
    var q := [[c] + parts[0]] + parts[1..];
    if |parts| > 1 {
      assert q[1..] == parts[1..];
    }
  }

  /** Joining the pieces of a split with the separator gives the text back. */
  lemma {:induction false} JoinSplit(s: string, sep: char)
    ensures Join([sep], Split(s, sep)) == s
    decreases |s|
  {
    if |s| == 0 {
    } else if s[0] == sep {
      JoinSplit(s[1..], sep);
      assert s == [s[0]] + s[1..];
    } else {
      JoinSplit(s[1..], sep);
      JoinConsHead(s[0], Split(s[1..], sep), [sep]);
      assert s == [s[0]] + s[1..];
    }
  }

  lemma {:induction false} SplitFreePrefix(w: string, t: string, sep: char)
    requires sep !in w
    ensures Split(w + [sep] + t, sep) == [w] + Split(t, sep)
    ensures Split(w, sep) == [w]
    decreases |w|
  {
    if |w| == 0 {
      assert w + [sep] + t == [sep] + t;
      assert ([sep] + t)[1..] == t;
    } else {
      SplitFreePrefix(w[1..], t, sep);
      assert (w + [sep] + t)[1..] == w[1..] + [sep] + t;
      assert [w[0]] + w[1..] == w;
    }
  }

  /** A separator-free last piece comes off the end. */
  lemma {:induction false} SplitSnoc(t: string, w: string, sep: char)
    requires sep !in w
    ensures Split(t + [sep] + w, sep) == Split(t, sep) + [w]
    decreases |t|
  {
    if |t| == 0 {
      assert t + [sep] + w == [sep] + w;
      assert ([sep] + w)[1..] == w;
      SplitFreePrefix(w, "", sep);
    } else {
      assert (t + [sep] + w)[1..] == t[1..] + [sep] + w;
      SplitSnoc(t[1..], w, sep);
    }
  }

  /** Splitting a join of separator-free pieces gives the pieces back. */
  lemma {:induction false} SplitJoin(parts: seq<string>, sep: char)
    requires |parts| >= 1
    requires forall i :: 0 <= i < |parts| ==> sep !in parts[i]
    ensures Split(Join([sep], parts), sep) == parts
    decreases |parts|
  {
    if |parts| == 1 {
      SplitFreePrefix(parts[0], "", sep);
    } else {
      SplitJoin(parts[1..], sep);
      SplitFreePrefix(parts[0], Join([sep], parts[1..]), sep);
      assert [parts[0]] + parts[1..] == parts;
    }
  }

  /** A character in neither the separator nor any piece is not in the join. */
  lemma {:induction false} JoinAvoids(sep: string, parts: seq<string>, c: char)
    requires c !in sep
    requires forall i :: 0 <= i < |parts| ==> c !in parts[i]
    ensures c !in Join(sep, parts)
    decreases |parts|
  {
    if |parts| > 1 {
      assert forall i :: 1 <= i < |parts| ==> parts[1..][i - 1] == parts[i];
      JoinAvoids(sep, parts[1..], c);
    }
  }

  // ---------------------------------------------------------------------------
  // replace
  // ---------------------------------------------------------------------------

  /** Python `s.replace(p, v)`: scanning left to right, every non-overlapping
      occurrence of `p` is replaced by `v`. */
  function ReplaceAll(s: string, p: string, v: string): string
    requires |p| > 0
    decreases |s|
  {
    if |s| < |p| then s
    else if s[..|p|] == p then v + ReplaceAll(s[|p|..], p, v)
    else [s[0]] + ReplaceAll(s[1..], p, v)
  }

  /** The text between the occurrences of `p` found by the same left-to-right scan. */
  function SplitOn(s: string, p: string): (pieces: seq<string>)
    requires |p| > 0
    ensures |pieces| >= 1
    decreases |s|
  {
    if |s| < |p| then [s]
    else if s[..|p|] == p then [""] + SplitOn(s[|p|..], p)
    else
      var rest := SplitOn(s[1..], p);
      [[s[0]] + rest[0]] + rest[1..]
  }

  lemma {:induction false} SplitOnHeadIsPrefix(s: string, p: string)
    requires |p| > 0
    ensures |SplitOn(s, p)[0]| <= |s| && SplitOn(s, p)[0] == s[..|SplitOn(s, p)[0]|]
    decreases |s|
  {
    if |s| < |p| {
      assert SplitOn(s, p)[0] == s;
    } else if s[..|p|] == p {
      assert SplitOn(s, p)[0] == "";
    } else {
      var tail := SplitOn(s[1..], p)[0];
      assert |tail| <= |s| - 1 && tail == s[1..][..|tail|] by {
        SplitOnHeadIsPrefix(s[1..], p);
      }
      var head := [s[0]] + tail;
      assert SplitOn(s, p)[0] == head;
      assert head == s[..|head|];
    }
  }

  lemma HeadPieceFree(s: string, p: string, rest0: string)
    requires |p| > 0 && |s| >= |p| && s[..|p|] != p
    requires |rest0| <= |s| - 1 && rest0 == s[1..][..|rest0|]
    requires !Occurs(p, rest0)
    ensures !Occurs(p, [s[0]] + rest0)
  {
    var head := [s[0]] + rest0;
    assert head == s[..|head|];
    assert !OccursAt(head, p, 0) by {
      if |head| >= |p| { assert head[..|p|] == s[..|p|]; }
    }
    forall i | 1 <= i <= |head| - |p| ensures !OccursAt(head, p, i) {
      assert head[i..i + |p|] == rest0[i - 1..i - 1 + |p|];
      assert !OccursAt(rest0, p, i - 1);
    }
  }

  lemma {:induction false} SplitOnPiecesFree(s: string, p: string)
    requires |p| > 0
    ensures forall k :: 0 <= k < |SplitOn(s, p)| ==> !Occurs(p, SplitOn(s, p)[k])
    decreases |s|
  {
    var pieces := SplitOn(s, p);
    if |s| < |p| {
      assert pieces == [s];
    } else if s[..|p|] == p {
      SplitOnPiecesFree(s[|p|..], p);
      var rest := SplitOn(s[|p|..], p);
      assert pieces == [""] + rest;
      forall k | 0 <= k < |pieces| ensures !Occurs(p, pieces[k]) {
        if k > 0 { assert pieces[k] == rest[k - 1]; }
      }
    } else {
      SplitOnPiecesFree(s[1..], p);
      SplitOnHeadIsPrefix(s[1..], p);
      var rest := SplitOn(s[1..], p);
      HeadPieceFree(s, p, rest[0]);
      assert pieces == [[s[0]] + rest[0]] + rest[1..];
      forall k | 0 <= k < |pieces| ensures !Occurs(p, pieces[k]) {
        if k > 0 { assert pieces[k] == rest[k]; }
      }
    }
  }

  lemma {:induction false} ReplaceAllIsJoin(s: string, p: string, v: string)
    requires |p| > 0
    ensures ReplaceAll(s, p, v) == Join(v, SplitOn(s, p))
    decreases |s|
  {
    if |s| < |p| {
    } else if s[..|p|] == p {
      ReplaceAllIsJoin(s[|p|..], p, v);
      assert ([""] + SplitOn(s[|p|..], p))[1..] == SplitOn(s[|p|..], p);
    } else {
      ReplaceAllIsJoin(s[1..], p, v);
      JoinConsHead(s[0], SplitOn(s[1..], p), v);
    }
  }

  lemma {:induction false} JoinSplitOn(s: string, p: string)
    requires |p| > 0
    ensures Join(p, SplitOn(s, p)) == s
    decreases |s|
  {
    if |s| < |p| {
    } else if s[..|p|] == p {
      JoinSplitOn(s[|p|..], p);
      assert ([""] + SplitOn(s[|p|..], p))[1..] == SplitOn(s[|p|..], p);
      assert s == s[..|p|] + s[|p|..];
    } else {
      JoinSplitOn(s[1..], p);
      JoinConsHead(s[0], SplitOn(s[1..], p), p);
      assert s == [s[0]] + s[1..];
    }
  }

  /** What `s.replace(p, v)` means: `s` is cut at the occurrences of `p` into
      pieces none of which contains `p`, and the result glues the same pieces
      together with `v` in place of `p`. */
  lemma ReplaceAllSpec(s: string, p: string, v: string)
    requires |p| > 0
    ensures var pieces := SplitOn(s, p);
      && Join(p, pieces) == s
      && (forall k :: 0 <= k < |pieces| ==> !Occurs(p, pieces[k]))
      && ReplaceAll(s, p, v) == Join(v, pieces)
  {
    JoinSplitOn(s, p);
    SplitOnPiecesFree(s, p);
    ReplaceAllIsJoin(s, p, v);
  }

  /** A text that does not contain `p` is returned unchanged. */
  lemma {:induction false} ReplaceAbsent(s: string, p: string, v: string)
    requires |p| > 0 && !Occurs(p, s)
    ensures ReplaceAll(s, p, v) == s
    decreases |s|
  {
    if |s| >= |p| {
      assert !OccursAt(s, p, 0);
      AbsentFromTail(p, s);
      ReplaceAbsent(s[1..], p, v);
      assert s == [s[0]] + s[1..];
    }
  }

  // ---------------------------------------------------------------------------
  // Paths
  // ---------------------------------------------------------------------------

  /** Where the last component of `path[..i]` starts: just after the last
      `/` before `i`, or 0. */
  function NameStart(path: string, i: nat): (k: nat)
    requires i <= |path|
    ensures k <= i
    ensures forall j :: k <= j < i ==> path[j] != '/'
    ensures k > 0 ==> path[k - 1] == '/'
    decreases i
  {
    if i == 0 || path[i - 1] == '/' then i else NameStart(path, i - 1)
  }

  /** Python `os.path.basename`: the text after the last `/`. */
  function Basename(path: string): string {
    path[NameStart(path, |path|)..]
  }

  /** The basename is a slash-free suffix of the path, and the path has a
      `/` just before it unless it is the whole path. */
  lemma BasenameSpec(path: string)
    ensures '/' !in Basename(path)
    ensures |Basename(path)| <= |path| && Basename(path) == path[|path| - |Basename(path)|..]
    ensures |Basename(path)| < |path| ==> path[|path| - |Basename(path)| - 1] == '/'
  {
    var k := NameStart(path, |path|);
    assert forall j :: 0 <= j < |path| - k ==> Basename(path)[j] == path[k + j];
  }

  /** A slash-free stretch that follows a `/` (or the start) is where the
      name starts. */
  lemma {:induction false} NameStartAt(path: string, i: nat, k: nat)
    requires k <= i <= |path|
    requires forall j :: k <= j < i ==> path[j] != '/'
    requires k > 0 ==> path[k - 1] == '/'
    ensures NameStart(path, i) == k
    decreases i
  {
    if i > k {
      NameStartAt(path, i - 1, k);
    }
  }

  // ---------------------------------------------------------------------------
  // Decimal integers
  // ---------------------------------------------------------------------------

  predicate IsDigit(c: char) {
    '0' <= c <= '9'
  }

  predicate AllDigits(s: string) {
    forall i :: 0 <= i < |s| ==> IsDigit(s[i])
  }

  function DigitChar(d: nat): (c: char)
    requires d < 10
    ensures IsDigit(c) && c as int - '0' as int == d
  {
    ('0' as int + d) as char
  }

  /** The value of a string of decimal digits. */
  function DigitsValue(s: string): nat
    requires AllDigits(s)
  {
    if |s| == 0 then 0
    else DigitsValue(s[..|s| - 1]) * 10 + (s[|s| - 1] as int - '0' as int)
  }

  /** The shortest decimal digit string of `n`. */
  function NatToDigits(n: nat): (s: string)
    ensures |s| >= 1 && AllDigits(s)
  {
    if n < 10 then [DigitChar(n)] else NatToDigits(n / 10) + [DigitChar(n % 10)]
  }

  /** Python `str(i)` for an integer. */
  function IntToString(i: int): string {
    if i < 0 then "-" + NatToDigits(-i) else NatToDigits(i)
  }

  /** Python `int(s)` on a string of ASCII decimal digits with an optional sign;
      `None` where Python raises `ValueError`. */
  function ParseInt(s: string): Option<int> {
    if |s| > 0 && (s[0] == '-' || s[0] == '+') then
      if |s| > 1 && AllDigits(s[1..]) then
        var magnitude: int := DigitsValue(s[1..]);
        Some(if s[0] == '-' then -magnitude else magnitude)
      else None
    else if |s| > 0 && AllDigits(s) then Some(DigitsValue(s))
    else None
  }

  lemma {:induction false} DigitsRoundTrip(n: nat)
    ensures DigitsValue(NatToDigits(n)) == n
    decreases n
  {
    if n >= 10 {
      DigitsRoundTrip(n / 10);
      var s := NatToDigits(n);
      assert s[..|s| - 1] == NatToDigits(n / 10);
    }
  }

  /** `int(str(i)) == i`: the decimal text of an integer reads back as it. */
  lemma ParseIntToString(i: int)
    ensures ParseInt(IntToString(i)) == Some(i)
  {
    if i < 0 {
      ParseNegative(-i);
    } else {
      ParseNonNegative(i);
    }
  }

  lemma ParseNegative(n: nat)
    requires n > 0
    ensures ParseInt("-" + NatToDigits(n)) == Some(-(n as int))
  {
    var digits := NatToDigits(n);
    var s := "-" + digits;
    DigitsRoundTrip(n);
    assert s[0] == '-' && |s| > 1;
    assert s[1..] == digits;
  }

  lemma ParseNonNegative(n: nat)
    ensures ParseInt(NatToDigits(n)) == Some(n)
  {
    var s := NatToDigits(n);
    DigitsRoundTrip(n);
    assert IsDigit(s[0]);
  }

  /** `str` is injective on integers. */
  lemma IntToStringInjective(i: int, j: int)
    requires IntToString(i) == IntToString(j)
    ensures i == j
  {
    ParseIntToString(i);
    ParseIntToString(j);
  }
}
