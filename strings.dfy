/** The JavaScript string operations the application relies on (`trim`,
    `toLowerCase`, `replace`, `split`, `join`, `startsWith`), over `seq<char>`. */
module Strings {
  import opened Common

  /** The characters `String.prototype.trim` strips: ECMAScript WhiteSpace
      and LineTerminator code points. */
  predicate IsWhitespace(c: char) {
    || c == '\t' || c == '\n' || c == '\U{B}' || c == '\U{C}' || c == '\r' || c == ' '
    || c == '\U{A0}' || c == '\U{1680}' || ('\U{2000}' <= c <= '\U{200A}')
    || c == '\U{2028}' || c == '\U{2029}' || c == '\U{202F}' || c == '\U{205F}'
    || c == '\U{3000}' || c == '\U{FEFF}'
  }

  /** A string whose `trim()` is the empty string (falsy). */
  predicate IsBlank(s: string) {
    forall i :: 0 <= i < |s| ==> IsWhitespace(s[i])
  }

  /** Drops the longest whitespace prefix. */
  function TrimStart(s: string): (r: string)
    ensures |r| <= |s| && r == s[|s| - |r|..]
    ensures IsBlank(s[..|s| - |r|])
    ensures r != [] ==> !IsWhitespace(r[0])
  {
    if s != [] && IsWhitespace(s[0]) then TrimStart(s[1..]) else s
  }

  /** Drops the longest whitespace suffix. */
  function TrimEnd(s: string): (r: string)
    ensures |r| <= |s| && r == s[..|r|]
    ensures IsBlank(s[|r|..])
    ensures r != [] ==> !IsWhitespace(r[|r| - 1])
  {
    if s != [] && IsWhitespace(s[|s| - 1]) then TrimEnd(s[..|s| - 1]) else s
  }

  /** `s.trim()`: the empty string exactly when `s` is blank, otherwise a
      string that neither starts nor ends with whitespace. */
  function Trim(s: string): (r: string)
    ensures r == [] <==> IsBlank(s)
    ensures |r| <= |s|
    ensures r != [] ==> !IsWhitespace(r[0]) && !IsWhitespace(r[|r| - 1])
  {
    var t := TrimStart(s);
    var r := TrimEnd(t);
    assert r == [] ==> IsBlank(s) by {
      if r == [] {
        assert IsBlank(t);
        assert s == s[..|s| - |t|] + t;
      }
    }
    r
  }

  /** `toLowerCase` on one character; only the ASCII letters are folded. */
  function LowerChar(c: char): char {
    if 'A' <= c <= 'Z' then (c as int + 32) as char else c
  }

  function ToLower(s: string): (r: string)
    ensures |r| == |s|
    ensures forall i :: 0 <= i < |s| ==> r[i] == LowerChar(s[i])
  {
    seq(|s|, i requires 0 <= i < |s| => LowerChar(s[i]))
  }

  /** `s.replace(/x/g, y)` for a one-character pattern `x`. */
  function ReplaceAll(s: string, x: char, y: char): (r: string)
    ensures |r| == |s|
    ensures forall i :: 0 <= i < |s| ==> r[i] == if s[i] == x then y else s[i]
  {
    seq(|s|, i requires 0 <= i < |s| => if s[i] == x then y else s[i])
  }

  predicate OccursAt(s: string, pat: string, i: nat) {
    i + |pat| <= |s| && s[i..i + |pat|] == pat
  }

  /** `s.indexOf(pat, from)` as an option: the first occurrence at or after `from`. */
  function IndexOfFrom(s: string, pat: string, from: nat): (r: Option<nat>)
    ensures r.Some? ==> from <= r.value && OccursAt(s, pat, r.value)
    ensures forall j :: from <= j && (r.None? || j < r.value) ==> !OccursAt(s, pat, j)
    decreases |s| - from
  {
    if |s| < from + |pat| then None
    else if s[from..from + |pat|] == pat then Some(from)
    else IndexOfFrom(s, pat, from + 1)
  }

  function IndexOf(s: string, pat: string): (r: Option<nat>)
    ensures r.Some? ==> OccursAt(s, pat, r.value)
    ensures forall j: nat :: (r.None? || j < r.value) ==> !OccursAt(s, pat, j)
  {
    IndexOfFrom(s, pat, 0)
  }

  /** `s.replace(pat, rep)` with a string pattern: only the first occurrence
      is replaced. */
  function ReplaceFirst(s: string, pat: string, rep: string): (r: string)
    ensures IndexOf(s, pat).None? ==> r == s
    ensures IndexOf(s, pat).Some? ==>
      var i := IndexOf(s, pat).value; r == s[..i] + rep + s[i + |pat|..]
  {
    match IndexOf(s, pat)
    case None => s
    case Some(i) => s[..i] + rep + s[i + |pat|..]
  }

  /** `xs.join(sep)`: the empty string for no element, the element itself
      for one, otherwise the first element, the separator and the join of
      the rest. */
  function Join(xs: seq<string>, sep: string): (r: string)
    ensures xs == [] ==> r == ""
    ensures |xs| == 1 ==> r == xs[0]
    ensures xs != [] ==> StartsWith(r, xs[0])
  {
    if xs == [] then "" else if |xs| == 1 then xs[0] else xs[0] + sep + Join(xs[1..], sep)
  }

  /** Joining one more element appends the separator and that element. */
  lemma {:induction false} JoinSnoc(xs: seq<string>, y: string, sep: string)
    requires xs != []
    ensures Join(xs + [y], sep) == Join(xs, sep) + sep + y
    decreases |xs|
  {
    if |xs| == 1 {
      assert xs + [y] == [xs[0], y];
      assert [xs[0], y][1..] == [y];
    } else {
      assert (xs + [y])[1..] == xs[1..] + [y];
      JoinSnoc(xs[1..], y, sep);
    }
  }

  /** `s.startsWith(p)`. */
  predicate StartsWith(s: string, p: string) {
    |p| <= |s| && s[..|p|] == p
  }

  /** `s.indexOf(c)` for a single character. */
  function IndexOfChar(s: string, c: char): (r: Option<nat>)
    ensures r.Some? ==> r.value < |s| && s[r.value] == c && c !in s[..r.value]
    ensures r.None? ==> c !in s
  {
    if s == [] then None
    else if s[0] == c then Some(0)
    else match IndexOfChar(s[1..], c)
      case None => None
      case Some(j) => assert s[..j + 1] == [s[0]] + s[1..][..j]; Some(j + 1)
  }

  /** `s.split(sep)[1]`: the field after the first separator, up to the next
      separator or the end; `undefined` (None) when `sep` does not occur. */
  function SecondField(s: string, sep: char): (r: Option<string>)
    ensures r.None? <==> sep !in s
    ensures r.Some? ==> sep !in r.value
  {
    match IndexOfChar(s, sep)
    case None => None
    case Some(i) =>
      var rest := s[i + 1..];
      match IndexOfChar(rest, sep)
      case None => Some(rest)
      case Some(j) => Some(rest[..j])
  }

  /** The field split inverts joining: a first field free of the separator,
      the separator, a second field free of it, then anything that starts
      with the separator or is empty. */
  lemma SecondFieldOfJoined(a: string, sep: char, b: string, tail: string)
    requires sep !in a && sep !in b
    requires tail == [] || tail[0] == sep
    ensures SecondField(a + [sep] + b + tail, sep) == Some(b)
  {
    var s := a + [sep] + b + tail;
    assert s[..|a|] == a && s[|a|] == sep;
    IndexOfCharFirst(s, sep, |a|);
    var rest := s[|a| + 1..];
    assert rest == b + tail;
    if tail == [] {
      assert rest == b;
    } else {
      assert rest[..|b|] == b && rest[|b|] == sep;
      IndexOfCharFirst(rest, sep, |b|);
      assert rest[..|b|] == b;
    }
  }

  /** The first position holding `c` is what `IndexOfChar` finds. */
  lemma IndexOfCharFirst(s: string, c: char, k: nat)
    requires k < |s| && s[k] == c && c !in s[..k]
    ensures IndexOfChar(s, c) == Some(k)
  {
    assert s[k] in s;
  }
}
