/**
  Shared vocabulary of the model: the exceptions the build script raises,
  results that carry either a value or such an exception, bytes, and the few
  string predicates Python's `str` methods provide.
 */
module Common {

  type byte = bv8

  datatype Option<T> = None | Some(value: T)

  /** The exceptions the build script raises or lets propagate. */
  datatype Error =
    | FileNotFound(name: string)       // FileNotFoundError, raised explicitly or by open/stat/shutil
    | SameFile(name: string)           // shutil.SameFileError: copying a file onto itself
    | CommandFailed(cmd: seq<string>)  // RuntimeError raised by _run in strict mode
    | InvalidLiteral(text: string)     // ValueError raised by int()
    | UploadFailed                     // RuntimeError raised once every upload attempt failed

  /** A value, or the exception raised instead of returning it. */
  datatype Result<T> = Ok(value: T) | Err(error: Error)

  /** The outcome of an action that returns nothing of interest. */
  datatype Status = Done | Raised(error: Error)

  /** The byte erased flash reads as, used for every padding. */
  const Erased: byte := 0xFF

  /** `b"\xFF" * n` */
  function Fill(n: nat): (r: seq<byte>)
    ensures |r| == n
    ensures forall i :: 0 <= i < n ==> r[i] == Erased
  {
    seq(n, _ => Erased)
  }

  predicate StartsWith(s: string, prefix: string) {
    |prefix| <= |s| && s[..|prefix|] == prefix
  }

  predicate EndsWith(s: string, suffix: string) {
    |suffix| <= |s| && s[|s| - |suffix|..] == suffix
  }

  /** `str.isspace` on the ASCII range (the Unicode spaces beyond it are not modelled). */
  predicate IsSpace(c: char) {
    c == ' ' || c == '\t' || c == '\n' || c == '\r' || c == '\U{B}' || c == '\U{C}'
    || ('\U{1C}' <= c <= '\U{1F}')
  }

  /** The number of white-space characters `s` starts with. */
  function LeadingSpaces(s: string): (k: nat)
    ensures k <= |s|
    ensures forall i :: 0 <= i < k ==> IsSpace(s[i])
    ensures k < |s| ==> !IsSpace(s[k])
    decreases |s|
  {
    if s != [] && IsSpace(s[0]) then
      var k := LeadingSpaces(s[1..]);
      assert forall i :: 1 <= i < k + 1 ==> s[i] == s[1..][i - 1];
      k + 1
    else 0
  }

  /** The number of white-space characters `s` ends with. */
  function TrailingSpaces(s: string): (k: nat)
    ensures k <= |s|
    ensures forall i :: |s| - k <= i < |s| ==> IsSpace(s[i])
    ensures k < |s| ==> !IsSpace(s[|s| - k - 1])
    decreases |s|
  {
    if s != [] && IsSpace(s[|s| - 1]) then
      var k := TrailingSpaces(s[..|s| - 1]);
      assert forall i :: |s| - 1 - k <= i < |s| - 1 ==> s[i] == s[..|s| - 1][i];
      k + 1
    else 0
  }

  /** `str.lstrip()`: drops the leading white space. */
  function StripLeft(s: string): string {
    s[LeadingSpaces(s)..]
  }

  /** `str.rstrip()`: drops the trailing white space. */
  function StripRight(s: string): string {
    s[..|s| - TrailingSpaces(s)]
  }

  /** `str.strip()`: the text between the leading and the trailing white space.
      What is left neither starts nor ends with white space, and text that
      already does not is returned unchanged. */
  function Strip(s: string): (r: string)
    ensures |r| <= |s|
    ensures r != [] ==> !IsSpace(r[0]) && !IsSpace(r[|r| - 1])
    ensures (s != [] ==> !IsSpace(s[0]) && !IsSpace(s[|s| - 1])) ==> r == s
  {
    var t := StripLeft(s);
    var r := StripRight(t);
    assert r != [] ==> r[0] == t[0] && t[0] == s[LeadingSpaces(s)];
    r
  }

  /** `strip()` removes exactly the white space at both ends: what is left is
      a slice of the input, and everything cut off on either side is white space. */
  lemma StripTrims(s: string)
    ensures var r := Strip(s); var k := LeadingSpaces(s);
      && k + |r| <= |s| && r == s[k..k + |r|]
      && (forall i :: 0 <= i < k ==> IsSpace(s[i]))
      && (forall i :: k + |r| <= i < |s| ==> IsSpace(s[i]))
  {
    var k := LeadingSpaces(s);
    var t := StripLeft(s);
    var j := TrailingSpaces(t);
    var r := Strip(s);
    assert t == s[k..] && r == t[..|t| - j];
    assert |r| == |t| - j && r == s[k..k + |r|];
    forall i | k + |r| <= i < |s| ensures IsSpace(s[i]) {
      assert s[i] == t[i - k];
      assert |t| - j <= i - k < |t|;
    }
  }

  /** `sep.join(parts)` for a non-empty list of parts. */
  function JoinWith(parts: seq<string>, sep: char): string
    requires parts != []
    decreases |parts|
  {
    if |parts| == 1 then parts[0] else parts[0] + [sep] + JoinWith(parts[1..], sep)
  }

  /** `s.split(sep)`: the pieces between the separators, always at least one. */
  function Split(s: string, sep: char): (r: seq<string>)
    ensures r != []
    decreases |s|
  {
    if s == [] then [""]
    else
      var rest := Split(s[1..], sep);
      if s[0] == sep then [""] + rest else [[s[0]] + rest[0]] + rest[1..]
  }

  lemma {:induction false} SplitPlain(a: string, sep: char)
    requires sep !in a
    ensures Split(a, sep) == [a]
    decreases |a|
  {
    if a != [] {
      SplitPlain(a[1..], sep);
      assert [a[0]] + a[1..] == a;
    }
  }

  lemma {:induction false} SplitAtSeparator(a: string, sep: char, rest: string)
    requires sep !in a
    ensures Split(a + [sep] + rest, sep) == [a] + Split(rest, sep)
    decreases |a|
  {
    var s := a + [sep] + rest;
    if a == [] {
      assert s[1..] == rest;
    } else {
      assert s[1..] == a[1..] + [sep] + rest;
      SplitAtSeparator(a[1..], sep, rest);
      assert [a[0]] + a[1..] == a;
    }
  }

  /** Splitting undoes joining when no part holds the separator. */
  lemma {:induction false} SplitJoin(parts: seq<string>, sep: char)
    requires parts != []
    requires forall i :: 0 <= i < |parts| ==> sep !in parts[i]
    ensures Split(JoinWith(parts, sep), sep) == parts
    decreases |parts|
  {
    if |parts| == 1 {
      SplitPlain(parts[0], sep);
    } else {
      SplitJoin(parts[1..], sep);
      SplitAtSeparator(parts[0], sep, JoinWith(parts[1..], sep));
      assert [parts[0]] + parts[1..] == parts;
    }
  }
}
