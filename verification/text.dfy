/** The string operations the controllers and services rely on:
    `string.Trim`, `string.Split(char)`, `char.ToUpper` and
    `StringComparison.OrdinalIgnoreCase`. Case mapping and whitespace are
    restricted to ASCII. */
module Text {
  import opened Common

  /** The whitespace `Trim` removes (ASCII part of the .NET set). */
  predicate IsWhite(c: char) {
    c == ' ' || c == '\t' || c == '\n' || c == '\r' || c == '\U{B}' || c == '\U{C}'
  }

  /** Drops leading whitespace. */
  function TrimStart(s: string): (r: string)
    ensures |r| <= |s| && r == s[|s| - |r|..]
    ensures forall i :: 0 <= i < |s| - |r| ==> IsWhite(s[i])
    ensures |r| == 0 || !IsWhite(r[0])
  {
    if |s| > 0 && IsWhite(s[0]) then TrimStart(s[1..]) else s
  }

  /** Drops trailing whitespace. */
  function TrimEnd(s: string): (r: string)
    ensures |r| <= |s| && r == s[..|r|]
    ensures forall i :: |r| <= i < |s| ==> IsWhite(s[i])
    ensures |r| == 0 || !IsWhite(r[|r| - 1])
  {
    if |s| > 0 && IsWhite(s[|s| - 1]) then TrimEnd(s[..|s| - 1]) else s
  }

  /** Number of whitespace characters `TrimStart` removes. */
  function Lead(s: string): nat {
    |s| - |TrimStart(s)|
  }

  /** `string.Trim()`: the slice of `s` after the leading and before the
      trailing whitespace; everything cut off is whitespace and the result
      neither starts nor ends with whitespace. */
  function Trim(s: string): (r: string)
    ensures Lead(s) + |r| <= |s| && r == s[Lead(s)..Lead(s) + |r|]
    ensures forall i :: 0 <= i < Lead(s) ==> IsWhite(s[i])
    ensures forall i :: Lead(s) + |r| <= i < |s| ==> IsWhite(s[i])
    ensures Trimmed(r)
  {
    var t := TrimStart(s);
    var r := TrimEnd(t);
    TrimEndOfSuffix(s, t, r);
    r
  }

  lemma TrimEndOfSuffix(s: string, t: string, r: string)
    requires |t| <= |s| && t == s[|s| - |t|..]
    requires |r| <= |t| && r == t[..|r|]
    requires forall i :: |r| <= i < |t| ==> IsWhite(t[i])
    ensures r == s[|s| - |t|..|s| - |t| + |r|]
    ensures forall i :: |s| - |t| + |r| <= i < |s| ==> IsWhite(s[i])
  {
    var a := |s| - |t|;
    forall i | a + |r| <= i < |s|
      ensures IsWhite(s[i])
    {
      assert s[i] == t[i - a];
    }
  }

  /** A string with no whitespace at either end. */
  predicate Trimmed(s: string) {
    |s| == 0 || (!IsWhite(s[0]) && !IsWhite(s[|s| - 1]))
  }

  lemma {:induction false} TrimStartOfTrimmed(s: string)
    requires |s| == 0 || !IsWhite(s[0])
    ensures TrimStart(s) == s
  {
  }

  /** Trimming leaves an already trimmed string alone; in particular `Trim`
      is idempotent. */
  lemma TrimFixesTrimmed(s: string)
    requires Trimmed(s)
    ensures Trim(s) == s
  {
    TrimStartOfTrimmed(s);
  }

  lemma TrimIdempotent(s: string)
    ensures Trim(Trim(s)) == Trim(s)
  {
    TrimFixesTrimmed(Trim(s));
  }

  /** Position of the first `c` in `s`. */
  function IndexOf(s: string, c: char): (k: nat)
    requires c in s
    ensures k < |s| && s[k] == c && c !in s[..k]
  {
    if s[0] == c then 0
    else
      var k := IndexOf(s[1..], c);
      assert s[..k + 1] == [s[0]] + s[1..][..k];
      k + 1
  }

  /** The inverse of `Split`: the parts glued back with `c` between them. */
  function Join(parts: seq<string>, c: char): string
    requires |parts| > 0
  {
    if |parts| == 1 then parts[0] else parts[0] + [c] + Join(parts[1..], c)
  }

  /** `string.Split(char)`: every segment between separators, empty ones
      included. Joining the parts gives `s` back, no part holds `c`, and
      there are at least two parts exactly when `c` occurs. */
  function Split(s: string, c: char): (parts: seq<string>)
    ensures |parts| > 0
    ensures forall i :: 0 <= i < |parts| ==> c !in parts[i]
    ensures Join(parts, c) == s
    ensures |parts| >= 2 <==> c in s
    decreases |s|
  {
    if c !in s then [s]
    else
      var k := IndexOf(s, c);
      var rest := Split(s[k + 1..], c);
      assert s == s[..k] + [c] + s[k + 1..];
      [s[..k]] + rest
  }

  /** Splitting what was joined gives back the parts. */
  lemma {:induction false} SplitJoin(parts: seq<string>, c: char)
    requires |parts| > 0
    requires forall i :: 0 <= i < |parts| ==> c !in parts[i]
    ensures Split(Join(parts, c), c) == parts
    decreases |parts|
  {
    if |parts| == 1 {
    } else {
      var rest := parts[1..];
      SplitJoin(rest, c);
      SplitAfterSegment(parts[0], Join(rest, c), c);
    }
  }

  /** `IndexOf` finds the first occurrence and no other. */
  lemma {:induction false} IndexOfIsFirst(s: string, c: char, j: nat)
    requires j < |s| && s[j] == c && c !in s[..j]
    ensures IndexOf(s, c) == j
    decreases j
  {
    if j > 0 {
      assert s[0] == s[..j][0];
      assert s[1..][..j - 1] == s[..j][1..];
      IndexOfIsFirst(s[1..], c, j - 1);
    }
  }

  /** A leading segment without `c`, followed by `c`, is split off first. */
  lemma SplitAfterSegment(a: string, rest: string, c: char)
    requires c !in a
    ensures Split(a + [c] + rest, c) == [a] + Split(rest, c)
  {
    var s := a + [c] + rest;
    assert s[..|a|] == a;
    IndexOfIsFirst(s, c, |a|);
    assert s[|a| + 1..] == rest;
  }

  /** The first part of a split is the text up to the first `c`. */
  lemma SplitHead(a: string, tail: string, c: char)
    requires c !in a
    requires |tail| == 0 || tail[0] == c
    ensures Split(a + tail, c)[0] == a
  {
    if |tail| == 0 {
      assert a + tail == a;
    } else {
      assert a + tail == a + [c] + tail[1..];
      SplitAfterSegment(a, tail[1..], c);
    }
  }

  /** ASCII case folding used for ordinal case-insensitive comparison. */
  function Fold(c: char): char {
    if 'A' <= c <= 'Z' then (c as int + 32) as char else c
  }

  /** `char.ToUpper` restricted to ASCII. */
  function ToUpper(c: char): char {
    if 'a' <= c <= 'z' then (c as int - 32) as char else c
  }

  /** `string.Equals(a, b, StringComparison.OrdinalIgnoreCase)`. */
  predicate EqualsIgnoreCase(a: string, b: string) {
    |a| == |b| && forall i :: 0 <= i < |a| ==> Fold(a[i]) == Fold(b[i])
  }

  /** Case-insensitive equality is an equivalence that contains equality. */
  lemma EqualsIgnoreCaseIsEquivalence(a: string, b: string, c: string)
    ensures EqualsIgnoreCase(a, a)
    ensures EqualsIgnoreCase(a, b) ==> EqualsIgnoreCase(b, a)
    ensures EqualsIgnoreCase(a, b) && EqualsIgnoreCase(b, c) ==> EqualsIgnoreCase(a, c)
  {
  }

  /** `char.ToUpper(s[0]) + s.Substring(1)`, failing as the indexer does on
      an empty string. */
  function Capitalise(s: string): (r: Result<string>)
    ensures r.Ok? <==> |s| > 0
    ensures r.Ok? ==> |r.value| == |s| && r.value[1..] == s[1..] && !('a' <= r.value[0] <= 'z')
    ensures r.Fail? ==> r.error == IndexOutOfRange
  {
    if |s| == 0 then Fail(IndexOutOfRange) else Ok([ToUpper(s[0])] + s[1..])
  }

  /** Capitalising changes only case, and doing it twice changes nothing more. */
  lemma CapitaliseKeepsLetters(s: string)
    requires |s| > 0
    ensures EqualsIgnoreCase(Capitalise(s).value, s)
    ensures Capitalise(Capitalise(s).value) == Capitalise(s)
  {
    var r := Capitalise(s).value;
    assert Fold(r[0]) == Fold(s[0]);
    forall i | 1 <= i < |s| ensures Fold(r[i]) == Fold(s[i]) {
      assert r[i] == r[1..][i - 1];
    }
  }

  /** `string.IsNullOrEmpty`. */
  predicate IsNullOrEmpty(s: Option<string>) {
    s.None? || s.value == ""
  }
}
