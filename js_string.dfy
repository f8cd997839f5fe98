/** The few JavaScript string operations the core relies on: `trim()`,
    `replace(/\\n/g, '\n')`, `split(sep).pop()` and the `||` fallback on an
    optional string. Strings are sequences of Unicode scalar values; a character
    outside the Basic Multilingual Plane is one character here where JavaScript
    sees two UTF-16 code units. */
module JsString {
  import opened Wrappers

  // ---------------------------------------------------------------------------
  // Truthiness and `a || b`

  /** A string-valued JavaScript expression is truthy when it is defined and non-empty. */
  predicate Truthy(s: Option<string>) {
    s.Some? && s.value != ""
  }

  /** `a || fallback` for an optional string `a`. */
  function OrElse(a: Option<string>, fallback: string): (r: string)
    ensures Truthy(a) ==> r == a.value
    ensures !Truthy(a) ==> r == fallback
    ensures fallback != "" ==> r != ""
  {
    if Truthy(a) then a.value else fallback
  }

  // ---------------------------------------------------------------------------
  // String.prototype.trim

  /** The ECMAScript WhiteSpace and LineTerminator code points, which `trim` strips. */
  const TrimmedChars: set<char> := {
    '\t', '\n', '\U{000B}', '\U{000C}', '\r', ' ', '\U{00A0}', '\U{1680}',
    '\U{2000}', '\U{2001}', '\U{2002}', '\U{2003}', '\U{2004}', '\U{2005}',
    '\U{2006}', '\U{2007}', '\U{2008}', '\U{2009}', '\U{200A}',
    '\U{2028}', '\U{2029}', '\U{202F}', '\U{205F}', '\U{3000}', '\U{FEFF}'}

  predicate IsTrimmable(c: char) {
    c in TrimmedChars
  }

  /** Every character of `s` in positions `lo` up to `hi` is white space. */
  predicate Blank(s: string, lo: int, hi: int)
    requires 0 <= lo <= hi <= |s|
  {
    forall k :: lo <= k < hi ==> IsTrimmable(s[k])
  }

  /** Drops the leading white space: the result is the longest suffix of `s`
      that starts with a non-white-space character (or is empty). */
  function TrimStart(s: string): (r: string)
    ensures |r| <= |s| && r == s[|s| - |r|..]
    ensures Blank(s, 0, |s| - |r|)
    ensures r != [] ==> !IsTrimmable(r[0])
  {
    if |s| > 0 && IsTrimmable(s[0]) then
      var r := TrimStart(s[1..]);
      assert forall k :: 1 <= k < |s| - |r| ==> s[k] == s[1..][k - 1];
      r
    else
      s
  }

  /** Drops the trailing white space: the result is the longest prefix of `s`
      that ends with a non-white-space character (or is empty). */
  function TrimEnd(s: string): (r: string)
    ensures |r| <= |s| && r == s[..|r|]
    ensures Blank(s, |r|, |s|)
    ensures r != [] ==> !IsTrimmable(r[|r| - 1])
  {
    if |s| > 0 && IsTrimmable(s[|s| - 1]) then
      var r := TrimEnd(s[..|s| - 1]);
      assert forall k :: |r| <= k < |s| - 1 ==> s[k] == s[..|s| - 1][k];
      r
    else
      s
  }

  /** `s.trim()`: `s` with white space removed from both ends. The result is a
      contiguous slice of `s`, everything cut off on either side is white space,
      and the result is empty exactly when `s` is all white space. */
  function Trim(s: string): (r: string)
    ensures |r| <= |s|
    ensures exists i :: 0 <= i <= |s| - |r| && r == s[i..i + |r|]
                        && Blank(s, 0, i) && Blank(s, i + |r|, |s|)
    ensures r != [] ==> !IsTrimmable(r[0]) && !IsTrimmable(r[|r| - 1])
    ensures r == [] <==> Blank(s, 0, |s|)
  {
    var t := TrimStart(s);
    var r := TrimEnd(t);
    TrimSlice(s, t, r);
    r
  }

  lemma TrimSlice(s: string, t: string, r: string)
    requires |t| <= |s| && t == s[|s| - |t|..] && Blank(s, 0, |s| - |t|)
    requires t != [] ==> !IsTrimmable(t[0])
    requires |r| <= |t| && r == t[..|r|] && Blank(t, |r|, |t|)
    ensures var i := |s| - |t|;
            && 0 <= i <= |s| - |r| && r == s[i..i + |r|]
            && Blank(s, 0, i) && Blank(s, i + |r|, |s|)
    ensures r != [] ==> !IsTrimmable(r[0])
    ensures r == [] <==> Blank(s, 0, |s|)
  {
    var i := |s| - |t|;
    assert r == s[i..i + |r|];
    assert forall k :: i + |r| <= k < |s| ==> s[k] == t[k - i];
    if r != [] {
      assert r[0] == t[0];
    }
    if t != [] {
      assert t[0] == s[i];
    }
  }

  lemma TrimIdempotent(s: string)
    ensures Trim(Trim(s)) == Trim(s)
  {
    var r := Trim(s);
    if r != [] {
      assert !IsTrimmable(r[0]);
      assert TrimStart(r) == r;
      assert TrimEnd(r) == r;
    }
  }

  // ---------------------------------------------------------------------------
  // replace(/\\n/g, '\n')

  /** A backslash immediately followed by the letter n starts at position k. */
  predicate EscapedNewlineAt(s: string, k: int) {
    0 <= k && k + 1 < |s| && s[k] == '\\' && s[k + 1] == 'n'
  }

  predicate HasEscapedNewline(s: string) {
    exists k :: 0 <= k < |s| && EscapedNewlineAt(s, k)
  }

  /** `s.replace(/\\n/g, '\n')`: scanning left to right, every two-character
      sequence backslash, n becomes one newline character; all other characters
      are copied. The result never contains a backslash followed by n. */
  function UnescapeNewlines(s: string): (r: string)
    ensures !HasEscapedNewline(r)
    ensures r == [] <==> s == []
    ensures |r| <= |s|
    ensures r != [] && r[0] == 'n' ==> s[0] == 'n'
  {
    if |s| >= 2 && s[0] == '\\' && s[1] == 'n' then
      var t := UnescapeNewlines(s[2..]);
      NoEscapedNewlineCons('\n', t);
      ['\n'] + t
    else if s == [] then
      []
    else
      var t := UnescapeNewlines(s[1..]);
      assert s[0] == '\\' && t != [] ==> t[0] != 'n';
      NoEscapedNewlineCons(s[0], t);
      [s[0]] + t
  }

  /** Prefixing `c` to a string with no escaped newline creates none, unless
      `c` is a backslash and the string starts with n. */
  lemma NoEscapedNewlineCons(c: char, t: string)
    requires !HasEscapedNewline(t)
    requires c == '\\' && t != [] ==> t[0] != 'n'
    ensures !HasEscapedNewline([c] + t)
  {
    var u := [c] + t;
    forall k | 0 <= k
      ensures !EscapedNewlineAt(u, k)
    {
      if k > 0 && EscapedNewlineAt(u, k) {
        assert EscapedNewlineAt(t, k - 1);
      }
    }
  }

  /** A string without an escaped newline is left unchanged. */
  lemma {:induction false} UnescapeNewlinesIdentity(s: string)
    requires !HasEscapedNewline(s)
    ensures UnescapeNewlines(s) == s
  {
    if s != [] {
      assert !EscapedNewlineAt(s, 0);
      forall k | 0 <= k
        ensures !EscapedNewlineAt(s[1..], k)
      {
        assert EscapedNewlineAt(s[1..], k) ==> EscapedNewlineAt(s, k + 1);
      }
      UnescapeNewlinesIdentity(s[1..]);
    }
  }

  /** Normalising twice is normalising once. */
  lemma UnescapeNewlinesIdempotent(s: string)
    ensures UnescapeNewlines(UnescapeNewlines(s)) == UnescapeNewlines(s)
  {
    UnescapeNewlinesIdentity(UnescapeNewlines(s));
  }

  /** The encoding that the normalisation undoes: every newline written as a
      backslash followed by n, the way a multi-line key is stored in a
      one-line environment variable. */
  function EscapeNewlines(s: string): (r: string)
    ensures |r| >= |s|
    ensures r == [] <==> s == []
    ensures r != [] ==> (r[0] == 'n' <==> s[0] == 'n')
  {
    if s == [] then []
    else if s[0] == '\n' then "\\n" + EscapeNewlines(s[1..])
    else [s[0]] + EscapeNewlines(s[1..])
  }

  /** Round trip: a text with no literal backslash-n (a PEM key, for one) is
      recovered exactly from its one-line form. */
  lemma {:induction false} UnescapeEscapeNewlines(s: string)
    requires !HasEscapedNewline(s)
    ensures UnescapeNewlines(EscapeNewlines(s)) == s
  {
    if s != [] {
      assert !EscapedNewlineAt(s, 0);
      forall k | 0 <= k
        ensures !EscapedNewlineAt(s[1..], k)
      {
        assert EscapedNewlineAt(s[1..], k) ==> EscapedNewlineAt(s, k + 1);
      }
      UnescapeEscapeNewlines(s[1..]);
      var e := EscapeNewlines(s[1..]);
      if s[0] == '\n' {
        assert EscapeNewlines(s) == "\\n" + e;
        assert ("\\n" + e)[2..] == e;
      } else {
        assert EscapeNewlines(s) == [s[0]] + e;
        assert ([s[0]] + e)[1..] == e;
      }
    }
  }

  // ---------------------------------------------------------------------------
  // split(sep) and pop()

  /** `sep` occurs in `s` starting at position k. */
  predicate OccursAt(s: string, sep: string, k: int) {
    0 <= k && k + |sep| <= |s| && s[k..k + |sep|] == sep
  }

  predicate Contains(s: string, sep: string) {
    exists k :: 0 <= k <= |s| && OccursAt(s, sep, k)
  }

  /** The first position at or after `from` where `sep` occurs. */
  function IndexOf(s: string, sep: string, from: nat): (r: Option<nat>)
    requires from <= |s|
    ensures r.Some? ==> from <= r.value && OccursAt(s, sep, r.value)
    ensures r.Some? ==> forall k :: from <= k < r.value ==> !OccursAt(s, sep, k)
    ensures r.None? ==> forall k :: from <= k ==> !OccursAt(s, sep, k)
    decreases |s| - from
  {
    if from + |sep| > |s| then None
    else if s[from..from + |sep|] == sep then Some(from)
    else if from == |s| then None
    else IndexOf(s, sep, from + 1)
  }

  /** `s.split(sep)` for a non-empty string separator: the pieces between
      successive left-to-right, non-overlapping occurrences of `sep`. */
  function Split(s: string, sep: string): (pieces: seq<string>)
    requires sep != []
    ensures |pieces| >= 1
  {
    SplitFrom(s, sep, 0)
  }

  /** The split of `s[from..]`, scanning for the separator from `from` on. */
  function SplitFrom(s: string, sep: string, from: nat): (pieces: seq<string>)
    requires sep != [] && from <= |s|
    ensures |pieces| >= 1
    decreases |s| - from
  {
    match IndexOf(s, sep, from)
    case None => [s[from..]]
    case Some(i) => [s[from..i]] + SplitFrom(s, sep, i + |sep|)
  }

  /** The pieces joined with `sep` in between (`Array.prototype.join`). */
  function Join(pieces: seq<string>, sep: string): string
    requires |pieces| >= 1
  {
    if |pieces| == 1 then pieces[0] else pieces[0] + sep + Join(pieces[1..], sep)
  }

  /** Joining the pieces of a split with the separator gives the string back. */
  lemma SplitJoin(s: string, sep: string)
    requires sep != []
    ensures Join(Split(s, sep), sep) == s
  {
    SplitFromJoin(s, sep, 0);
  }

  lemma {:induction false} SplitFromJoin(s: string, sep: string, from: nat)
    requires sep != [] && from <= |s|
    ensures Join(SplitFrom(s, sep, from), sep) == s[from..]
    decreases |s| - from
  {
    match IndexOf(s, sep, from)
    case None =>
    case Some(i) =>
      var rest := SplitFrom(s, sep, i + |sep|);
      SplitFromJoin(s, sep, i + |sep|);
      assert ([s[from..i]] + rest)[1..] == rest;
      assert s[from..] == s[from..i] + sep + s[i + |sep|..];
  }

  /** Where the last piece of `SplitFrom(s, sep, from)` starts: no occurrence
      of `sep` starts there or later, and unless it is `from` itself an
      occurrence of `sep` ends there. */
  function LastPieceStart(s: string, sep: string, from: nat): (e: nat)
    requires sep != [] && from <= |s|
    ensures from <= e <= |s|
    ensures forall k :: e <= k ==> !OccursAt(s, sep, k)
    ensures e == from || (e >= from + |sep| && OccursAt(s, sep, e - |sep|))
    decreases |s| - from
  {
    match IndexOf(s, sep, from)
    case None => from
    case Some(i) => LastPieceStart(s, sep, i + |sep|)
  }

  lemma {:induction false} LastOfSplitFrom(s: string, sep: string, from: nat)
    requires sep != [] && from <= |s|
    ensures var pieces := SplitFrom(s, sep, from);
            pieces[|pieces| - 1] == s[LastPieceStart(s, sep, from)..]
    decreases |s| - from
  {
    match IndexOf(s, sep, from)
    case None =>
    case Some(i) =>
      LastOfSplitFrom(s, sep, i + |sep|);
  }

  /** `s.split(sep).pop()`: the last piece, which is never undefined since a
      split has at least one piece. It is the suffix of `s` from
      LastPieceStart on. */
  function LastPiece(s: string, sep: string): (r: string)
    requires sep != []
    ensures r == s[LastPieceStart(s, sep, 0)..]
  {
    var pieces := Split(s, sep);
    LastOfSplitFrom(s, sep, 0);
    pieces[|pieces| - 1]
  }

  predicate EndsWith(s: string, suffix: string) {
    |s| >= |suffix| && s[|s| - |suffix|..] == suffix
  }

  /** The first character of `sep` occurs nowhere else in it, so two
      occurrences of `sep` cannot overlap. */
  predicate FirstCharUnique(sep: string) {
    sep != [] && forall d :: 0 < d < |sep| ==> sep[d] != sep[0]
  }

  lemma OccurrencesApart(s: string, sep: string, i: int, j: int)
    requires FirstCharUnique(sep)
    requires OccursAt(s, sep, i) && OccursAt(s, sep, j) && i < j
    ensures j >= i + |sep|
  {
    assert s[j] == s[j..j + |sep|][0];
  }

  /** The facts LastPieceStart guarantees about its result `e`, read for a
      separator that cannot overlap itself. */
  lemma LastOccurrenceFacts(s: string, sep: string, e: nat)
    requires FirstCharUnique(sep) && e <= |s|
    requires forall k :: e <= k ==> !OccursAt(s, sep, k)
    requires e == 0 || (e >= |sep| && OccursAt(s, sep, e - |sep|))
    ensures !Contains(s, sep) <==> e == 0
    ensures e != 0 ==> forall k :: OccursAt(s, sep, k) ==> k <= e - |sep|
  {
    if e == 0 {
      assert !Contains(s, sep);
    } else {
      assert Contains(s, sep) by { assert OccursAt(s, sep, e - |sep|); }
      forall k | OccursAt(s, sep, k)
        ensures k <= e - |sep|
      {
        if e - |sep| < k < e {
          OccurrencesApart(s, sep, e - |sep|, k);
        }
      }
    }
  }

  lemma EmptyLastPieceFacts(s: string, sep: string, e: nat)
    requires FirstCharUnique(sep) && e <= |s|
    requires forall k :: e <= k ==> !OccursAt(s, sep, k)
    requires e == 0 || (e >= |sep| && OccursAt(s, sep, e - |sep|))
    ensures e == |s| <==> s == [] || EndsWith(s, sep)
  {
    if e == |s| && s != [] {
      assert s[|s| - |sep|..] == s[|s| - |sep|..|s|];
    }
    if EndsWith(s, sep) {
      var j := |s| - |sep|;
      assert OccursAt(s, sep, j) by { assert s[j..j + |sep|] == s[j..]; }
      if e < |s| {
        OccurrencesApart(s, sep, e - |sep|, j);
      }
    }
  }

  /** For a separator that cannot overlap itself, the last piece is what
      follows the LAST occurrence of the separator, or all of `s` when there is
      none; it is empty exactly when `s` is empty or ends with the separator. */
  lemma LastPieceAfterLastOccurrence(s: string, sep: string)
    requires FirstCharUnique(sep)
    ensures var r := LastPiece(s, sep);
            && (!Contains(s, sep) ==> r == s)
            && (Contains(s, sep) ==>
                  && OccursAt(s, sep, |s| - |r| - |sep|)
                  && forall k :: OccursAt(s, sep, k) ==> k <= |s| - |r| - |sep|)
            && (r == [] <==> s == [] || EndsWith(s, sep))
  {
    var e := LastPieceStart(s, sep, 0);
    LastOccurrenceFacts(s, sep, e);
    EmptyLastPieceFacts(s, sep, e);
    assert |LastPiece(s, sep)| == |s| - e;
  }
}
