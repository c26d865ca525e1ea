/**
 * The `lastmod` rewriter: a one-pass filter over the lines of a Hugo page
 * that replaces every `lastmod` line inside a `---` block with a fresh one
 * and, at a closing `---` met before any `lastmod` line has been seen,
 * inserts the fresh line just before that delimiter.
 */
module Lastmod {
  import opened Wrappers
  import opened Text

  /** `offset[:3] + ":" + offset[3:]`: "+0200" (as `%z` prints it) becomes "+02:00". */
  function FormatOffset(offset: string): (r: string)
    ensures |r| == |offset| + 1
    ensures var c := if |offset| < 3 then |offset| else 3;
      r[c] == ':' && r[..c] == offset[..c] && r[c + 1..] == offset[c..]
  {
    Take(offset, 3) + ":" + Drop(offset, 3)
  }

  /** Removing the inserted colon gives the offset back. */
  lemma FormatOffsetInverse(offset: string)
    ensures var c := if |offset| < 3 then |offset| else 3;
      FormatOffset(offset)[..c] + FormatOffset(offset)[c + 1..] == offset
  {
    var c := if |offset| < 3 then |offset| else 3;
    assert offset[..c] + offset[c..] == offset;
  }

  lemma FormatOffsetExample()
    ensures FormatOffset("+0200") == "+02:00"
  {
    assert Take("+0200", 3) == "+02";
    assert Drop("+0200", 3) == "00";
  }

  /** The local time as ISO text: the clock reading `clock` followed by the formatted offset. */
  function LocalIsoTime(clock: string, offset: string): (r: string)
    ensures StartsWith(r, clock) && |r| == |clock| + |offset| + 1
    ensures r[|clock|..] == FormatOffset(offset)
  {
    assert (clock + FormatOffset(offset))[..|clock|] == clock;
    clock + FormatOffset(offset)
  }

  /**
   * The replacement line. The filter recognises it as a `lastmod` line
   * and never as a delimiter, and the time can be read back from it.
   */
  function NewLastmod(timestr: string): (r: string)
    ensures StartsWith(r, "lastmod") && !IsYamlDelimiter(r)
    ensures |r| == |timestr| + 10 && r[9..|r| - 1] == timestr && r[|r| - 1] == '\n'
    ensures r[..9] == "lastmod: "
  {
    var r := "lastmod: " + timestr + "\n";
    assert r[..7] == "lastmod";
    assert r[0] == 'l';
    NotDelimiter(r);
    r
  }

  /** `in_yaml` and `lastmod_found`. */
  datatype ScanState = ScanState(inYaml: bool, found: bool)

  const Start := ScanState(false, false)

  /** What one input line contributes to the output buffer. */
  function Emit(st: ScanState, line: string, newLastmod: string): seq<string>
  {
    if IsYamlDelimiter(line) then
      (if st.inYaml && !st.found then [newLastmod, line] else [line])
    else if st.inYaml && StartsWith(line, "lastmod") then [newLastmod]
    else [line]
  }

  /** The state after one input line. */
  function Next(st: ScanState, line: string): ScanState
  {
    if IsYamlDelimiter(line) then ScanState(!st.inYaml, st.found)
    else if st.inYaml && StartsWith(line, "lastmod") then ScanState(true, true)
    else st
  }

  /** The output buffer for `lines` read from state `st`. */
  function Rewrite(lines: seq<string>, st: ScanState, newLastmod: string): seq<string>
    decreases |lines|
  {
    if |lines| == 0 then []
    else Emit(st, lines[0], newLastmod) + Rewrite(lines[1..], Next(st, lines[0]), newLastmod)
  }

  /** The state after `lines`. */
  function After(lines: seq<string>, st: ScanState): ScanState
    decreases |lines|
  {
    if |lines| == 0 then st else After(lines[1..], Next(st, lines[0]))
  }

  /** How many closing delimiters are met while no `lastmod` line has been found. */
  function Closings(lines: seq<string>, st: ScanState): nat
    decreases |lines|
  {
    if |lines| == 0 then 0
    else (if IsYamlDelimiter(lines[0]) && st.inYaml && !st.found then 1 else 0)
         + Closings(lines[1..], Next(st, lines[0]))
  }

  /** Every `lastmod` line of a block replaced by the new line. */
  function ReplaceLastmod(block: seq<string>, newLastmod: string): (r: seq<string>)
    ensures |r| == |block|
    decreases |block|
  {
    if |block| == 0 then []
    else [if StartsWith(block[0], "lastmod") then newLastmod else block[0]]
         + ReplaceLastmod(block[1..], newLastmod)
  }

  predicate HasLastmod(block: seq<string>)
  {
    exists i :: 0 <= i < |block| && StartsWith(block[i], "lastmod")
  }

  predicate NoDelimiters(lines: seq<string>)
  {
    forall i :: 0 <= i < |lines| ==> !IsYamlDelimiter(lines[i])
  }

  lemma {:induction false} RewriteAppend(a: seq<string>, b: seq<string>, st: ScanState, newLastmod: string)
    ensures Rewrite(a + b, st, newLastmod) == Rewrite(a, st, newLastmod) + Rewrite(b, After(a, st), newLastmod)
    ensures After(a + b, st) == After(b, After(a, st))
    decreases |a|
  {
    if |a| == 0 {
      assert a + b == b;
    } else {
      assert (a + b)[0] == a[0] && (a + b)[1..] == a[1..] + b;
      RewriteAppend(a[1..], b, Next(st, a[0]), newLastmod);
    }
  }

  /** Outside a block, lines without a delimiter pass through unchanged. */
  lemma {:induction false} PassThrough(lines: seq<string>, st: ScanState, newLastmod: string)
    requires !st.inYaml && NoDelimiters(lines)
    ensures Rewrite(lines, st, newLastmod) == lines
    ensures After(lines, st) == st && Closings(lines, st) == 0
    decreases |lines|
  {
    if |lines| > 0 {
      assert !IsYamlDelimiter(lines[0]);
      PassThrough(lines[1..], st, newLastmod);
    }
  }

  /** Input without any `---` line comes out as it went in. */
  lemma NoBlockNoChange(lines: seq<string>, newLastmod: string)
    requires NoDelimiters(lines)
    ensures Rewrite(lines, Start, newLastmod) == lines
  {
    PassThrough(lines, Start, newLastmod);
  }

  /** Inside a block, every `lastmod` line is replaced (not duplicated) and marks the line found. */
  lemma {:induction false} InsideBlock(block: seq<string>, st: ScanState, newLastmod: string)
    requires st.inYaml && NoDelimiters(block)
    ensures Rewrite(block, st, newLastmod) == ReplaceLastmod(block, newLastmod)
    ensures After(block, st) == ScanState(true, st.found || HasLastmod(block))
    ensures Closings(block, st) == 0
    decreases |block|
  {
    if |block| > 0 {
      assert !IsYamlDelimiter(block[0]);
      var rest := block[1..];
      InsideBlock(rest, Next(st, block[0]), newLastmod);
      if HasLastmod(rest) {
        var j :| 0 <= j < |rest| && StartsWith(rest[j], "lastmod");
        assert block[j + 1] == rest[j];
      }
      if HasLastmod(block) && !StartsWith(block[0], "lastmod") {
        var i :| 0 <= i < |block| && StartsWith(block[i], "lastmod");
        assert i > 0 && rest[i - 1] == block[i];
      }
    }
  }

  /** The output around the line at index i: what came before, that line's contribution, and the rest. */
  lemma StepAt(lines: seq<string>, i: nat, newLastmod: string)
    requires i < |lines|
    ensures var st := After(lines[..i], Start);
      Rewrite(lines, Start, newLastmod) == Rewrite(lines[..i], Start, newLastmod)
        + (Emit(st, lines[i], newLastmod) + Rewrite(lines[i + 1..], Next(st, lines[i]), newLastmod))
  {
    assert lines == lines[..i] + lines[i..];
    RewriteAppend(lines[..i], lines[i..], Start, newLastmod);
    assert lines[i..][0] == lines[i] && lines[i..][1..] == lines[i + 1..];
  }

  /**
   * Insertion: a closing `---` met while no `lastmod` line has been found
   * comes out with the new line immediately before it.
   */
  lemma InsertionAt(lines: seq<string>, i: nat, newLastmod: string)
    requires i < |lines| && IsYamlDelimiter(lines[i])
    requires After(lines[..i], Start) == ScanState(true, false)
    ensures Rewrite(lines, Start, newLastmod) == Rewrite(lines[..i], Start, newLastmod)
      + ([newLastmod, lines[i]] + Rewrite(lines[i + 1..], ScanState(false, false), newLastmod))
  {
    StepAt(lines, i, newLastmod);
  }

  /**
   * Replacement: a line starting with `lastmod` inside a block (a prefix
   * match, so `lastmodified` too) comes out as the new line alone, and
   * from then on the line counts as found.
   */
  lemma ReplacementAt(lines: seq<string>, i: nat, newLastmod: string)
    requires i < |lines| && !IsYamlDelimiter(lines[i]) && StartsWith(lines[i], "lastmod")
    requires After(lines[..i], Start).inYaml
    ensures Rewrite(lines, Start, newLastmod) == Rewrite(lines[..i], Start, newLastmod)
      + ([newLastmod] + Rewrite(lines[i + 1..], ScanState(true, true), newLastmod))
  {
    StepAt(lines, i, newLastmod);
  }

  /** `lastmodified: x` inside a block is replaced as well. */
  lemma PrefixMatchExample(newLastmod: string)
    ensures Rewrite(["---\n", "lastmodified: x\n"], Start, newLastmod) == ["---\n", newLastmod]
  {
    var lines := ["---\n", "lastmodified: x\n"];
    assert lines[0][..3] == "---";
    assert lines[1][..7] == "lastmod";
    assert lines[1][0] == 'l';
    NotDelimiter(lines[1]);
    assert lines[1..][1..] == [];
  }

  /**
   * A page with one front-matter block: the block's `lastmod` lines are
   * replaced, the new line is added before the closing `---` when the
   * block had none, and everything else is kept in order.
   */
  lemma SingleBlock(pre: seq<string>, open: string, block: seq<string>, close: string, post: seq<string>,
                    newLastmod: string)
    requires NoDelimiters(pre) && NoDelimiters(block) && NoDelimiters(post)
    requires IsYamlDelimiter(open) && IsYamlDelimiter(close)
    ensures var inserted := if HasLastmod(block) then [] else [newLastmod];
      Rewrite(pre + ([open] + (block + ([close] + post))), Start, newLastmod) ==
        pre + ([open] + (ReplaceLastmod(block, newLastmod) + (inserted + ([close] + post))))
  {
    var nl := newLastmod;
    var found := HasLastmod(block);
    var inside := ScanState(true, false);
    var closing := ScanState(true, found);
    var closed := ScanState(false, found);
    var tail3 := [close] + post;
    var tail2 := block + tail3;
    var tail1 := [open] + tail2;
    PassThrough(pre, Start, nl);
    RewriteAppend(pre, tail1, Start, nl);
    OpenBlock(open, nl);
    RewriteAppend([open], tail2, Start, nl);
    InsideBlock(block, inside, nl);
    RewriteAppend(block, tail3, inside, nl);
    CloseBlock(close, closing, nl);
    RewriteAppend([close], post, closing, nl);
    PassThrough(post, closed, nl);
    var inserted := if found then [] else [nl];
    assert Rewrite(tail3, closing, nl) == inserted + ([close] + post) by {
      Assoc(inserted, [close], post);
    }
  }

  /** With one block, the output has one line more than the input exactly when the block has no `lastmod` line. */
  lemma SingleBlockLength(pre: seq<string>, open: string, block: seq<string>, close: string, post: seq<string>,
                          newLastmod: string)
    requires NoDelimiters(pre) && NoDelimiters(block) && NoDelimiters(post)
    requires IsYamlDelimiter(open) && IsYamlDelimiter(close)
    ensures var lines := pre + ([open] + (block + ([close] + post)));
      |Rewrite(lines, Start, newLastmod)| == |lines| + (if HasLastmod(block) then 0 else 1)
  {
    SingleBlock(pre, open, block, close, post, newLastmod);
  }

  /** A solver hint: regrouping a concatenation of three sequences. */
  lemma Assoc<T>(a: seq<T>, b: seq<T>, c: seq<T>)
    ensures (a + b) + c == a + (b + c)
  {
  }

  lemma OpenBlock(open: string, newLastmod: string)
    requires IsYamlDelimiter(open)
    ensures Rewrite([open], Start, newLastmod) == [open]
    ensures After([open], Start) == ScanState(true, false)
  {
    assert [open][1..] == [];
  }

  lemma CloseBlock(close: string, st: ScanState, newLastmod: string)
    requires IsYamlDelimiter(close) && st.inYaml
    ensures Rewrite([close], st, newLastmod) == (if st.found then [] else [newLastmod]) + [close]
    ensures After([close], st) == ScanState(false, st.found)
  {
    assert [close][1..] == [];
  }

  /** Every output line beyond the input's is one inserted at a closing delimiter. */
  lemma {:induction false} LengthIsInputPlusClosings(lines: seq<string>, st: ScanState, newLastmod: string)
    ensures |Rewrite(lines, st, newLastmod)| == |lines| + Closings(lines, st)
    decreases |lines|
  {
    if |lines| > 0 {
      LengthIsInputPlusClosings(lines[1..], Next(st, lines[0]), newLastmod);
    }
  }

  /** `lastmod_found` is never reset: once set, nothing more is inserted. */
  lemma {:induction false} FoundSticky(lines: seq<string>, st: ScanState, newLastmod: string)
    requires st.found
    ensures After(lines, st).found && Closings(lines, st) == 0
    ensures |Rewrite(lines, st, newLastmod)| == |lines|
    decreases |lines|
  {
    if |lines| > 0 {
      FoundSticky(lines[1..], Next(st, lines[0]), newLastmod);
    }
  }

  /**
   * Repeated blocks: with no `lastmod` line anywhere, `in_yaml` toggles on
   * every `---` and every second one is a closing delimiter that gets a
   * new line, so the output has one extra line per closed block.
   */
  lemma {:induction false} EveryBlockGetsOne(lines: seq<string>, st: ScanState, newLastmod: string)
    requires !st.found
    requires forall i :: 0 <= i < |lines| ==> !StartsWith(lines[i], "lastmod")
    ensures Closings(lines, st) == (|DelimiterLines(lines)| + (if st.inYaml then 1 else 0)) / 2
    ensures |Rewrite(lines, st, newLastmod)| ==
      |lines| + (|DelimiterLines(lines)| + (if st.inYaml then 1 else 0)) / 2
    decreases |lines|
  {
    if |lines| > 0 {
      assert !StartsWith(lines[0], "lastmod");
      EveryBlockGetsOne(lines[1..], Next(st, lines[0]), newLastmod);
    }
    LengthIsInputPlusClosings(lines, st, newLastmod);
  }

  /** The delimiter lines of the output are those of the input, in the same order. */
  lemma {:induction false} DelimitersPreserved(lines: seq<string>, st: ScanState, newLastmod: string)
    requires !IsYamlDelimiter(newLastmod)
    ensures DelimiterLines(Rewrite(lines, st, newLastmod)) == DelimiterLines(lines)
    decreases |lines|
  {
    if |lines| > 0 {
      DelimitersPreserved(lines[1..], Next(st, lines[0]), newLastmod);
      var e := Emit(st, lines[0], newLastmod);
      var rest := Rewrite(lines[1..], Next(st, lines[0]), newLastmod);
      DelimiterLinesAppend(e, rest);
      if |e| == 2 {
        assert e[1..][1..] == [];
      }
    }
  }

  lemma {:induction false} DelimiterLinesAppend(a: seq<string>, b: seq<string>)
    ensures DelimiterLines(a + b) == DelimiterLines(a) + DelimiterLines(b)
    decreases |a|
  {
    if |a| == 0 {
      assert a + b == b;
    } else {
      assert (a + b)[0] == a[0] && (a + b)[1..] == a[1..] + b;
      DelimiterLinesAppend(a[1..], b);
    }
  }

  /**
   * Running the filter again on its own output with the same time changes
   * nothing. `first` is the state of the first run, `second` that of the
   * run over its output: they agree on `in_yaml`, and a line found by the
   * first run has been found by the second.
   */
  lemma {:induction false} RewriteIdempotentFrom(lines: seq<string>, first: ScanState, second: ScanState,
                                                 newLastmod: string)
    requires StartsWith(newLastmod, "lastmod") && !IsYamlDelimiter(newLastmod)
    requires second.inYaml == first.inYaml && (first.found ==> second.found)
    ensures Rewrite(Rewrite(lines, first, newLastmod), second, newLastmod) == Rewrite(lines, first, newLastmod)
    decreases |lines|
  {
    if |lines| > 0 {
      var nl := newLastmod;
      var e := Emit(first, lines[0], nl);
      var rest := Rewrite(lines[1..], Next(first, lines[0]), nl);
      RewriteAppend(e, rest, second, nl);
      EmitStable(first, second, lines[0], nl);
      RewriteIdempotentFrom(lines[1..], Next(first, lines[0]), After(e, second), nl);
    }
  }

  /** One step of the idempotence argument: the first run's output for a line is a fixed point. */
  lemma EmitStable(first: ScanState, second: ScanState, line: string, newLastmod: string)
    requires StartsWith(newLastmod, "lastmod") && !IsYamlDelimiter(newLastmod)
    requires second.inYaml == first.inYaml && (first.found ==> second.found)
    ensures var e := Emit(first, line, newLastmod);
      && Rewrite(e, second, newLastmod) == e
      && After(e, second).inYaml == Next(first, line).inYaml
      && (Next(first, line).found ==> After(e, second).found)
  {
    var nl := newLastmod;
    var e := Emit(first, line, nl);
    if IsYamlDelimiter(line) && first.inYaml && !first.found {
      assert e == [nl, line];
      var mid := Next(second, nl);
      assert mid == ScanState(true, true);
      assert Rewrite([nl, line], second, nl) == [nl] + Rewrite([line], mid, nl) by {
        assert [nl, line][1..] == [line];
      }
      assert [line][1..] == [];
      assert Rewrite([line], mid, nl) == [line];
      assert After([nl, line], second) == After([line], mid) by {
        assert [nl, line][1..] == [line];
      }
      assert After([line], mid) == Next(mid, line);
    } else {
      assert |e| == 1;
      assert Rewrite(e, second, nl) == Emit(second, e[0], nl) + Rewrite(e[1..], Next(second, e[0]), nl);
      assert e[1..] == [];
    }
  }

  /** Updating twice with the same time gives the same page as updating once. */
  lemma RewriteIdempotent(lines: seq<string>, timestr: string)
    ensures var nl := NewLastmod(timestr);
      Rewrite(Rewrite(lines, Start, nl), Start, nl) == Rewrite(lines, Start, nl)
  {
    RewriteIdempotentFrom(lines, Start, Start, NewLastmod(timestr));
  }

  /** Where the lines come from: standard input or a named file. */
  datatype Source = Stdin | File(name: string)

  /** Where the buffer is written. */
  datatype Destination = Stdout | ToFile(name: string)

  /** Python's `filename` variable: None before the first line, False for stdin, else the name. */
  datatype Recorded = Unset | NotAFile | Named(name: string)

  predicate Truthy(r: Recorded)
  {
    r.Named? && r.name != ""
  }

  /** The filename the loop records: set on the first line only, so it stays None for empty input. */
  function RecordedName(source: Source, lines: seq<string>): Recorded
  {
    if |lines| == 0 then Unset else if source.File? then Named(source.name) else NotAFile
  }

  /**
   * The `with fileinput.input()` loop: one pass over the lines, appending
   * to the output buffer and recording the input's filename.
   */
  method FilterLines(source: Source, lines: seq<string>, newLastmod: string)
    returns (outputBuffer: seq<string>, filename: Recorded)
    ensures outputBuffer == Rewrite(lines, Start, newLastmod)
    ensures filename == RecordedName(source, lines)
  {
    var inYaml := false;
    var lastmodFound := false;
    filename := Unset;
    outputBuffer := [];
    for i := 0 to |lines|
      invariant outputBuffer == Rewrite(lines[..i], Start, newLastmod)
      invariant ScanState(inYaml, lastmodFound) == After(lines[..i], Start)
      invariant filename == RecordedName(source, lines[..i])
    {
      var line := lines[i];
      ghost var st := ScanState(inYaml, lastmodFound);
      ghost var before := outputBuffer;
      RewriteSnoc(lines, i, newLastmod);
      if filename == Unset {
        if source.File? {
          filename := Named(source.name);
        } else {
          filename := NotAFile;
        }
      }
      if IsYamlDelimiter(line) {
        if inYaml {
          inYaml := false;
          if !lastmodFound {
            outputBuffer := outputBuffer + [newLastmod];
          }
        } else {
          inYaml := true;
        }
      } else if inYaml && StartsWith(line, "lastmod") {
        lastmodFound := true;
        outputBuffer := outputBuffer + [newLastmod];
        assert outputBuffer == before + Emit(st, line, newLastmod);
        continue;
      }
      outputBuffer := outputBuffer + [line];
      assert outputBuffer == before + Emit(st, line, newLastmod) by {
        if IsYamlDelimiter(line) && st.inYaml && !st.found {
          Assoc(before, [newLastmod], [line]);
        }
      }
    }
    assert lines[..|lines|] == lines;
  }

  /** The output buffer after one more line: the buffer so far plus that line's contribution. */
  lemma RewriteSnoc(lines: seq<string>, i: nat, newLastmod: string)
    requires i < |lines|
    ensures Rewrite(lines[..i + 1], Start, newLastmod) ==
      Rewrite(lines[..i], Start, newLastmod) + Emit(After(lines[..i], Start), lines[i], newLastmod)
    ensures After(lines[..i + 1], Start) == Next(After(lines[..i], Start), lines[i])
  {
    assert lines[..i + 1] == lines[..i] + [lines[i]];
    RewriteAppend(lines[..i], [lines[i]], Start, newLastmod);
    var st := After(lines[..i], Start);
    assert [lines[i]][1..] == [];
    assert Rewrite([lines[i]], st, newLastmod) == Emit(st, lines[i], newLastmod) + [];
    assert Emit(st, lines[i], newLastmod) + [] == Emit(st, lines[i], newLastmod);
  }

  /**
   * The output destination and the dry-run rule: `-o` wins, then the
   * recorded input filename; otherwise standard output. A dry run writes
   * nowhere (None).
   */
  method ChooseDestination(filename: Recorded, outputFilename: string, dryrun: bool)
    returns (destination: Option<Destination>)
    ensures destination.None? <==> dryrun
    ensures !dryrun && outputFilename != "" ==> destination == Some(ToFile(outputFilename))
    ensures !dryrun && outputFilename == "" && Truthy(filename) ==> destination == Some(ToFile(filename.name))
    ensures !dryrun && outputFilename == "" && !Truthy(filename) ==> destination == Some(Stdout)
  {
    var target := if outputFilename == "" then filename else Named(outputFilename);
    var saveFile := Stdout;
    if Truthy(target) {
      if !dryrun {
        saveFile := ToFile(target.name);
      }
    }
    if !dryrun {
      destination := Some(saveFile);
    } else {
      destination := None;
    }
  }

  /**
   * `update_lastmod` for one input: rewrites the stream and picks the
   * destination. `outputFilename` is the `-o` value ("" when absent);
   * `clock` and `offset` are the local time and its `%z` offset.
   * `destination` is None when nothing is written (dry run).
   */
  method UpdateLastmod(source: Source, lines: seq<string>, outputFilename: string, dryrun: bool,
                       clock: string, offset: string)
    returns (outputBuffer: seq<string>, destination: Option<Destination>)
    ensures outputBuffer == Rewrite(lines, Start, NewLastmod(LocalIsoTime(clock, offset)))
    ensures destination.None? <==> dryrun
    ensures !dryrun && outputFilename != "" ==> destination == Some(ToFile(outputFilename))
    ensures !dryrun && outputFilename == "" && source.File? && source.name != "" && |lines| > 0 ==>
      destination == Some(ToFile(source.name))
    ensures !dryrun && outputFilename == "" && (source.Stdin? || source.name == "" || |lines| == 0) ==>
      destination == Some(Stdout)
  {
    var newLastmod := NewLastmod(LocalIsoTime(clock, offset));
    var filename;
    outputBuffer, filename := FilterLines(source, lines, newLastmod);
    destination := ChooseDestination(filename, outputFilename, dryrun);
  }
}
