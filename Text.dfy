/** The .NET string operations the services use, on `string` = `seq<char>`:
    ordinal `Split` and `Join`, `StartsWith`, `Trim`, `IsNullOrWhiteSpace`,
    `char.IsWhiteSpace`, `char.IsLetter` and ordinal case-insensitive
    comparison. */
module Text {
  import opened Wrappers

  /** `sep` occurs in `s` starting at index `i`. */
  predicate OccursAt(s: string, sep: string, i: nat) {
    i + |sep| <= |s| && s[i..i + |sep|] == sep
  }

  /** `sep` occurs somewhere in `s`. */
  predicate Contains(s: string, sep: string) {
    exists i: nat :: i <= |s| && OccursAt(s, sep, i)
  }

  /** `s` starts with `prefix` (ordinal comparison). */
  predicate StartsWith(s: string, prefix: string) {
    OccursAt(s, prefix, 0)
  }

  /** A text whose first character differs from the prefix's does not start
      with it. */
  lemma FirstCharRulesOutPrefix(s: string, prefix: string)
    requires s != [] && prefix != [] && s[0] != prefix[0]
    ensures !StartsWith(s, prefix)
  {
    if |prefix| <= |s| {
      assert s[..|prefix|][0] == s[0];
    }
  }

  /** The first occurrence of `sep` in `s` at or after index `i`
      (ordinal `IndexOf`). */
  function IndexFrom(s: string, sep: string, i: nat): (r: Option<nat>)
    decreases |s| - i
    ensures r.Some? ==>
      i <= r.value && OccursAt(s, sep, r.value) && forall j: nat :: i <= j < r.value ==> !OccursAt(s, sep, j)
    ensures r.None? ==> forall j: nat :: i <= j ==> !OccursAt(s, sep, j)
  {
    if i + |sep| > |s| then None
    else if OccursAt(s, sep, i) then Some(i)
    else IndexFrom(s, sep, i + 1)
  }

  /** Splits `s` at every non-overlapping occurrence of `sep`, scanning left
      to right (`string.Split(string)` with no options): empty pieces are
      kept, and there is always at least one piece. */
  function Split(s: string, sep: string): (r: seq<string>)
    requires sep != []
    decreases |s|
    ensures |r| >= 1
    ensures forall k :: 0 <= k < |r| ==> !Contains(r[k], sep)
  {
    match IndexFrom(s, sep, 0)
    case None => [s]
    case Some(i) =>
      PrefixBeforeFirstOccurrence(s, sep, i);
      [s[..i]] + Split(s[i + |sep|..], sep)
  }

  lemma PrefixBeforeFirstOccurrence(s: string, sep: string, i: nat)
    requires sep != [] && i <= |s|
    requires forall j: nat :: j < i ==> !OccursAt(s, sep, j)
    ensures !Contains(s[..i], sep)
  {
    forall j: nat | OccursAt(s[..i], sep, j)
      ensures false
    {
      assert s[..i][j..j + |sep|] == s[j..j + |sep|];
      assert OccursAt(s, sep, j);
    }
  }

  /** The pieces joined with `sep` between each two (`string.Join`). */
  function Join(parts: seq<string>, sep: string): string {
    if |parts| == 0 then []
    else if |parts| == 1 then parts[0]
    else parts[0] + sep + Join(parts[1..], sep)
  }

  /** Splitting and joining again with the same separator gives back the
      original text. */
  lemma {:induction false} JoinSplit(s: string, sep: string)
    requires sep != []
    decreases |s|
    ensures Join(Split(s, sep), sep) == s
  {
    match IndexFrom(s, sep, 0)
    case None =>
    case Some(i) =>
      var rest := s[i + |sep|..];
      var pieces := Split(rest, sep);
      JoinSplit(rest, sep);
      assert Split(s, sep) == [s[..i]] + pieces;
      assert ([s[..i]] + pieces)[1..] == pieces;
      assert Join([s[..i]] + pieces, sep) == s[..i] + sep + Join(pieces, sep);
      assert s[i..i + |sep|] == sep;
      assert s == s[..i] + s[i..i + |sep|] + rest;
  }

  /** No proper suffix of `sep` is also a prefix of it, so two occurrences
      of `sep` never overlap ("\r\n" and "POS=" are such separators). */
  predicate BorderFree(sep: string) {
    forall k :: 0 < k < |sep| ==> sep[k..] != sep[..|sep| - k]
  }

  /** A separator whose first character does not occur again in it is
      border-free. */
  lemma BorderFreeIfHeadUnique(sep: string)
    requires forall k :: 0 < k < |sep| ==> sep[k] != sep[0]
    ensures BorderFree(sep)
  {
    forall k | 0 < k < |sep|
      ensures sep[k..] != sep[..|sep| - k]
    {
      assert sep[k..][0] == sep[k];
      assert sep[..|sep| - k][0] == sep[0];
    }
  }

  /** In `p + sep + rest`, with `p` free of `sep`, the first occurrence of a
      border-free `sep` is the one right after `p`. */
  lemma FirstOccurrenceAfter(p: string, sep: string, rest: string)
    requires sep != [] && BorderFree(sep) && !Contains(p, sep)
    ensures IndexFrom(p + sep + rest, sep, 0) == Some(|p|)
  {
    var t := p + sep + rest;
    assert t[|p|..|p| + |sep|] == sep;
    assert OccursAt(t, sep, |p|);
    forall j: nat | j < |p|
      ensures !OccursAt(t, sep, j)
    {
      if j + |sep| <= |p| {
        assert p[j..j + |sep|] == t[j..j + |sep|];
        assert !OccursAt(p, sep, j);
      } else {
        var k := |p| - j;
        assert t[|p|..j + |sep|] == sep[..|sep| - k];
        assert sep[k..] != sep[..|sep| - k];
      }
    }
  }

  /** Splitting the join of separator-free pieces gives the pieces back. */
  lemma {:induction false} SplitJoin(parts: seq<string>, sep: string)
    requires sep != [] && BorderFree(sep) && |parts| >= 1
    requires forall k :: 0 <= k < |parts| ==> !Contains(parts[k], sep)
    ensures Split(Join(parts, sep), sep) == parts
  {
    if |parts| == 1 {
      assert IndexFrom(parts[0], sep, 0) == None;
    } else {
      var rest := Join(parts[1..], sep);
      var t := parts[0] + sep + rest;
      assert Join(parts, sep) == t;
      FirstOccurrenceAfter(parts[0], sep, rest);
      SplitAtFirst(t, sep, |parts[0]|);
      assert t[..|parts[0]|] == parts[0];
      assert t[|parts[0]| + |sep|..] == rest;
      SplitJoin(parts[1..], sep);
      assert parts == [parts[0]] + parts[1..];
    }
  }

  /** At the first occurrence of the separator, `Split` cuts off one piece. */
  lemma SplitAtFirst(t: string, sep: string, i: nat)
    requires sep != [] && IndexFrom(t, sep, 0) == Some(i)
    ensures i + |sep| <= |t|
    ensures Split(t, sep) == [t[..i]] + Split(t[i + |sep|..], sep)
  {
  }

  /** `char.IsWhiteSpace`: the Unicode space separators, the line and
      paragraph separators, U+0009..U+000D, U+0085 and U+00A0. */
  predicate IsWhiteSpace(c: char) {
    c == ' ' || ('\t' <= c <= '\r') || c == '\U{0085}' || c == '\U{00A0}' || c == '\U{1680}'
    || ('\U{2000}' <= c <= '\U{200A}') || c == '\U{2028}' || c == '\U{2029}' || c == '\U{202F}'
    || c == '\U{205F}' || c == '\U{3000}'
  }

  /** `char.IsLetter` for the characters up to U+00FF (categories Lu, Ll, Lt,
      Lm and Lo of Latin-1); every later character counts as a non-letter. */
  predicate IsLetter(c: char) {
    ('A' <= c <= 'Z') || ('a' <= c <= 'z') || c == '\U{00AA}' || c == '\U{00B5}' || c == '\U{00BA}'
    || ('\U{00C0}' <= c <= '\U{00D6}') || ('\U{00D8}' <= c <= '\U{00F6}') || ('\U{00F8}' <= c <= '\U{00FF}')
  }

  predicate AllLetters(s: string) {
    forall i :: 0 <= i < |s| ==> IsLetter(s[i])
  }

  /** `string.IsNullOrWhiteSpace` for a non-null string. */
  predicate IsNullOrWhiteSpace(s: string) {
    forall i :: 0 <= i < |s| ==> IsWhiteSpace(s[i])
  }

  function TrimStart(s: string): (r: string)
    ensures |r| <= |s| && r == s[|s| - |r|..]
    ensures forall i :: 0 <= i < |s| - |r| ==> IsWhiteSpace(s[i])
    ensures r == [] || !IsWhiteSpace(r[0])
  {
    if s != [] && IsWhiteSpace(s[0]) then TrimStart(s[1..]) else s
  }

  function TrimEnd(s: string): (r: string)
    ensures |r| <= |s| && r == s[..|r|]
    ensures forall i :: |r| <= i < |s| ==> IsWhiteSpace(s[i])
    ensures r == [] || !IsWhiteSpace(r[|r| - 1])
  {
    if s != [] && IsWhiteSpace(s[|s| - 1]) then TrimEnd(s[..|s| - 1]) else s
  }

  /** `r` is the slice of `s` at index `i`, and everything around it in `s`
      is white space. */
  predicate TrimmedAt(s: string, r: string, i: int) {
    0 <= i <= |s| - |r| && r == s[i..i + |r|]
    && (forall j :: 0 <= j < i ==> IsWhiteSpace(s[j]))
    && (forall j :: i + |r| <= j < |s| ==> IsWhiteSpace(s[j]))
  }

  /** `string.Trim()`: `s` without its leading and trailing white space. The
      result is empty exactly when `s` is all white space. */
  function Trim(s: string): (r: string)
    ensures exists i :: TrimmedAt(s, r, i)
    ensures r != [] ==> !IsWhiteSpace(r[0]) && !IsWhiteSpace(r[|r| - 1])
    ensures r == [] <==> IsNullOrWhiteSpace(s)
  {
    var t := TrimStart(s);
    var r := TrimEnd(t);
    assert r == s[|s| - |t|..|s| - |t| + |r|];
    assert TrimmedAt(s, r, |s| - |t|);
    r
  }

  /** Text with no white space at either end is its own trim. */
  lemma NoWhiteAtEnds(s: string)
    requires s != [] && !IsWhiteSpace(s[0]) && !IsWhiteSpace(s[|s| - 1])
    ensures Trim(s) == s
  {
    var t := Trim(s);
    var i :| TrimmedAt(s, t, i);
  }

  /** Ordinal case-insensitive folding (only ASCII letters change case up
      to U+00FF in an ordinal comparison against ASCII names). */
  function ToUpper(c: char): char {
    if 'a' <= c <= 'z' then (c as int - 32) as char else c
  }

  /** Ordinal case-insensitive string equality. */
  predicate EqualsIgnoreCase(a: string, b: string) {
    |a| == |b| && forall i :: 0 <= i < |a| ==> ToUpper(a[i]) == ToUpper(b[i])
  }

  /** Comparing with a one-character name compares the folded characters. */
  lemma EqualsIgnoreCaseSingle(s: string, c: char)
    ensures EqualsIgnoreCase(s, [c]) <==> |s| == 1 && ToUpper(s[0]) == ToUpper(c)
  {
    if |s| == 1 {
      assert ToUpper(s[0]) == ToUpper(c) ==> EqualsIgnoreCase(s, [c]);
    }
  }

  /** Text without the separator is a single piece. */
  lemma SplitWithoutSeparator(s: string, sep: string)
    requires sep != []
    ensures !Contains(s, sep) ==> Split(s, sep) == [s]
  {
  }

  /** Text that starts with the separator and has no other occurrence
      splits into an empty piece and the rest. */
  lemma SplitAfterLeadingSeparator(sep: string, rest: string)
    requires sep != [] && !Contains(rest, sep)
    ensures Split(sep + rest, sep) == ["", rest]
  {
    var t := sep + rest;
    assert t[0..|sep|] == sep;
    assert IndexFrom(t, sep, 0) == Some(0);
    SplitAtFirst(t, sep, 0);
    assert t[|sep|..] == rest;
    SplitWithoutSeparator(rest, sep);
  }

  /** Two separator-free pieces joined by a border-free separator split
      back into those two pieces. */
  lemma SplitTwoPieces(a: string, sep: string, b: string)
    requires sep != [] && BorderFree(sep) && !Contains(a, sep) && !Contains(b, sep)
    ensures Split(a + sep + b, sep) == [a, b]
  {
    var t := a + sep + b;
    FirstOccurrenceAfter(a, sep, b);
    SplitAtFirst(t, sep, |a|);
    assert t[..|a|] == a;
    assert t[|a| + |sep|..] == b;
    SplitWithoutSeparator(b, sep);
  }

  /** A text lacking one of the separator's characters cannot contain it. */
  lemma MissingCharNotContained(s: string, sep: string, k: nat)
    requires k < |sep| && sep[k] !in s
    ensures !Contains(s, sep)
  {
  }

  /** The pieces glued together with nothing in between
      (`string.Join(string.Empty, ...)`). */
  function Concat(parts: seq<string>): string {
    if parts == [] then [] else parts[0] + Concat(parts[1..])
  }
}
