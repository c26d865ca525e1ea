/**
 * The few Python string operations both tools rely on, with Python's
 * semantics: prefix tests, slices that clamp instead of failing,
 * one-character strip, split on a separator, join, and str() of a
 * natural number. Strings are sequences of characters; files are
 * sequences of lines, each line keeping its end-of-line characters.
 */
module Text {

  predicate StartsWith(s: string, prefix: string)
  {
    |prefix| <= |s| && s[..|prefix|] == prefix
  }

  predicate EndsWith(s: string, suffix: string)
  {
    |suffix| <= |s| && s[|s| - |suffix|..] == suffix
  }

  /** A line that opens or closes a YAML frontmatter block. */
  predicate IsYamlDelimiter(line: string)
  {
    StartsWith(line, "---")
  }

  lemma NotDelimiter(line: string)
    requires |line| > 0 && line[0] != '-'
    ensures !IsYamlDelimiter(line)
  {
    if |line| >= 3 {
      assert line[..3][0] == line[0];
    }
  }

  /** The delimiter lines of `lines`, in order. */
  function DelimiterLines(lines: seq<string>): seq<string>
  {
    if |lines| == 0 then []
    else (if IsYamlDelimiter(lines[0]) then [lines[0]] else []) + DelimiterLines(lines[1..])
  }

  /** Python's `s[:n]` for n >= 0. */
  function Take(s: string, n: nat): string
  {
    if n <= |s| then s[..n] else s
  }

  /** Python's `s[n:]` for n >= 0. */
  function Drop(s: string, n: nat): string
  {
    if n <= |s| then s[n..] else ""
  }

  /** Python's `s[:-n]` for n > 0. */
  function DropLast(s: string, n: nat): string
  {
    if n <= |s| then s[..|s| - n] else ""
  }

  /** The concatenation of all lines, as `+=` over them builds it. */
  function Concat(lines: seq<string>): string
  {
    if |lines| == 0 then "" else lines[0] + Concat(lines[1..])
  }

  /** Appending one more line to what `+=` has built so far. */
  lemma {:induction false} ConcatSnoc(lines: seq<string>, x: string)
    ensures Concat(lines + [x]) == Concat(lines) + x
    decreases |lines|
  {
    if |lines| == 0 {
      assert lines + [x] == [x];
      assert [x][1..] == [];
    } else {
      assert (lines + [x])[0] == lines[0] && (lines + [x])[1..] == lines[1..] + [x];
      ConcatSnoc(lines[1..], x);
      assert lines[0] + (Concat(lines[1..]) + x) == (lines[0] + Concat(lines[1..])) + x;
    }
  }

  /** Python's `s.lstrip(c)` for a one-character argument. */
  function LStrip(s: string, c: char): (r: string)
    ensures |r| <= |s| && r == s[|s| - |r|..]
    ensures forall i :: 0 <= i < |s| - |r| ==> s[i] == c
    ensures r == "" || r[0] != c
    decreases |s|
  {
    if |s| > 0 && s[0] == c then LStrip(s[1..], c) else s
  }

  /** Python's `s.rstrip(c)` for a one-character argument. */
  function RStrip(s: string, c: char): (r: string)
    ensures |r| <= |s| && r == s[..|r|]
    ensures forall i :: |r| <= i < |s| ==> s[i] == c
    ensures r == "" || r[|r| - 1] != c
    decreases |s|
  {
    if |s| > 0 && s[|s| - 1] == c then RStrip(s[..|s| - 1], c) else s
  }

  /** `"".split(c)` is `[""]`. */
  lemma SplitEmpty(c: char)
    ensures Split("", c) == [""]
  {
  }

  /** Python's `sep.join(parts)`. */
  function Join(parts: seq<string>, sep: string): string
  {
    if |parts| == 0 then ""
    else if |parts| == 1 then parts[0]
    else parts[0] + sep + Join(parts[1..], sep)
  }

  /**
   * Python's `s.split(c)` with an explicit one-character separator: never
   * empty (`"".split(c)` is `[""]`), no part holds the separator, and
   * joining the parts with it gives `s` back.
   */
  function Split(s: string, c: char): (r: seq<string>)
    ensures |r| >= 1
    ensures forall i :: 0 <= i < |r| ==> c !in r[i]
    ensures Join(r, [c]) == s
    decreases |s|
  {
    if |s| == 0 then [""]
    else
      var rest := Split(s[1..], c);
      if s[0] == c then
        assert ([""] + rest)[1..] == rest;
        [""] + rest
      else
        JoinConsChar(s[0], rest, [c]);
        [[s[0]] + rest[0]] + rest[1..]
  }

  lemma JoinConsChar(x: char, parts: seq<string>, sep: string)
    requires |parts| >= 1
    ensures Join([[x] + parts[0]] + parts[1..], sep) == [x] + Join(parts, sep)
  {
    var ps := [[x] + parts[0]] + parts[1..];
    if |parts| > 1 {
      assert ps[1..] == parts[1..];
    }
  }

  /** Splitting a string that starts with a separator-free `p`. */
  lemma {:induction false} SplitPrefix(p: string, s: string, c: char)
    requires c !in p
    ensures Split(p + s, c) == [p + Split(s, c)[0]] + Split(s, c)[1..]
    decreases |p|
  {
    if |p| > 0 {
      assert (p + s)[1..] == p[1..] + s;
      SplitPrefix(p[1..], s, c);
      assert [p[0]] + (p[1..] + Split(s, c)[0]) == p + Split(s, c)[0];
    } else {
      assert p == "" && p + s == s && p + Split(s, c)[0] == Split(s, c)[0];
      assert [p + Split(s, c)[0]] + Split(s, c)[1..] == Split(s, c);
    }
  }

  /** The other round trip: split undoes join when no part holds the separator. */
  lemma {:induction false} SplitJoin(parts: seq<string>, c: char)
    requires |parts| >= 1
    requires forall i :: 0 <= i < |parts| ==> c !in parts[i]
    ensures Split(Join(parts, [c]), c) == parts
    decreases |parts|
  {
    if |parts| == 1 {
      SplitPrefix(parts[0], "", c);
      assert parts[0] + "" == parts[0];
    } else {
      var rest := Join(parts[1..], [c]);
      assert Join(parts, [c]) == parts[0] + ([c] + rest);
      SplitPrefix(parts[0], [c] + rest, c);
      assert ([c] + rest)[1..] == rest;
      SplitJoin(parts[1..], c);
      assert Split([c] + rest, c) == [""] + parts[1..];
      assert parts[0] + "" == parts[0];
      assert [parts[0]] + parts[1..] == parts;
    }
  }

  function Digit(d: nat): char
    requires d < 10
  {
    (48 + d) as char
  }

  /** Python's `str(n)` for a natural number: its decimal digits. */
  function NatToString(n: nat): (s: string)
    ensures 1 <= |s|
    ensures n < 10 <==> |s| == 1
  {
    if n < 10 then [Digit(n)] else NatToString(n / 10) + [Digit(n % 10)]
  }

  lemma {:induction false} NatToStringInjective(a: nat, b: nat)
    requires NatToString(a) == NatToString(b)
    ensures a == b
    decreases a
  {
    if a >= 10 && b >= 10 {
      var sa, sb := NatToString(a), NatToString(b);
      assert sa[..|sa| - 1] == NatToString(a / 10);
      assert sb[..|sb| - 1] == NatToString(b / 10);
      NatToStringInjective(a / 10, b / 10);
      assert Digit(a % 10) == sa[|sa| - 1] == sb[|sb| - 1] == Digit(b % 10);
    } else if a < 10 && b < 10 {
      assert Digit(a) == NatToString(a)[0] == NatToString(b)[0] == Digit(b);
    }
  }
}
