/**
 * The walk of `create_index_list`: the entries in `os.walk` order, each
 * `.md` file given the next id and turned into a record. The record
 * builder is a parameter here, so these facts hold whatever it does.
 */
module Walk {
  import opened Wrappers
  import opened Paths

  /** A file the walk yields: its directory, its name, and its lines. */
  datatype WalkEntry = WalkEntry(root: string, filename: string, lines: seq<string>)

  /**
   * The index the walk from `walk` on yields when `last` ids are already
   * taken and each `.md` file is turned into a record by `build`.
   */
  function IndexFrom<R>(walk: seq<WalkEntry>, last: nat, build: (WalkEntry, nat) -> Option<R>)
    : Option<seq<R>>
    decreases |walk|
  {
    if |walk| == 0 then Some([])
    else if !IsMarkdown(walk[0].filename) then IndexFrom(walk[1..], last, build)
    else
      var r := build(walk[0], last + 1);
      if r.None? then None
      else Prepend([r.value], IndexFrom(walk[1..], last + 1, build))
  }

  /** The `.md` entries of a walk, in walk order. */
  function MarkdownEntries(walk: seq<WalkEntry>): seq<WalkEntry>
  {
    if |walk| == 0 then []
    else (if IsMarkdown(walk[0].filename) then [walk[0]] else []) + MarkdownEntries(walk[1..])
  }

  /**
   * Numbering: one record per `.md` entry and none for other files; the
   * i-th record is the i-th `.md` entry's record with id last + i + 1.
   */
  lemma {:induction false} Numbering<R>(walk: seq<WalkEntry>, last: nat, build: (WalkEntry, nat) -> Option<R>,
                                        records: seq<R>)
    requires IndexFrom(walk, last, build) == Some(records)
    ensures |records| == |MarkdownEntries(walk)|
    ensures forall i :: 0 <= i < |records| ==> Some(records[i]) == build(MarkdownEntries(walk)[i], last + i + 1)
    decreases |walk|, 1
  {
    if |walk| > 0 {
      var mdRest := MarkdownEntries(walk[1..]);
      if !IsMarkdown(walk[0].filename) {
        assert MarkdownEntries(walk) == [] + mdRest == mdRest;
        Numbering(walk[1..], last, build, records);
      } else {
        NumberingMarkdown(walk, last, build, records);
      }
    }
  }

  /** The step of Numbering for a walk that starts with a `.md` entry. */
  lemma {:induction false} NumberingMarkdown<R>(walk: seq<WalkEntry>, last: nat,
                                                build: (WalkEntry, nat) -> Option<R>, records: seq<R>)
    requires |walk| > 0 && IsMarkdown(walk[0].filename)
    requires IndexFrom(walk, last, build) == Some(records)
    ensures |records| == |MarkdownEntries(walk)|
    ensures forall i :: 0 <= i < |records| ==> Some(records[i]) == build(MarkdownEntries(walk)[i], last + i + 1)
    decreases |walk|, 0
  {
    var tail := IndexFrom(walk[1..], last + 1, build);
    var first := MarkdownStep(walk, last, build);
    var rest := tail.value;
    Numbering(walk[1..], last + 1, build, rest);
    ShiftNumbering(first, rest, walk[0], MarkdownEntries(walk[1..]), last, build);
  }

  /** A walk that starts with a `.md` entry: its record comes first, and its entry heads the `.md` entries. */
  lemma MarkdownStep<R>(walk: seq<WalkEntry>, last: nat, build: (WalkEntry, nat) -> Option<R>) returns (first: R)
    requires |walk| > 0 && IsMarkdown(walk[0].filename)
    requires IndexFrom(walk, last, build).Some?
    ensures build(walk[0], last + 1) == Some(first)
    ensures IndexFrom(walk[1..], last + 1, build).Some?
    ensures IndexFrom(walk, last, build).value == [first] + IndexFrom(walk[1..], last + 1, build).value
    ensures MarkdownEntries(walk) == [walk[0]] + MarkdownEntries(walk[1..])
  {
    first := build(walk[0], last + 1).value;
  }

  /** Numbering a list with one more record in front moves every id up by one. */
  lemma ShiftNumbering<R>(first: R, rest: seq<R>, entry: WalkEntry, mdRest: seq<WalkEntry>,
                          last: nat, build: (WalkEntry, nat) -> Option<R>)
    requires Some(first) == build(entry, last + 1)
    requires |rest| == |mdRest|
    requires forall i :: 0 <= i < |rest| ==> Some(rest[i]) == build(mdRest[i], last + 1 + i + 1)
    ensures var records, md := [first] + rest, [entry] + mdRest;
      && |records| == |md|
      && forall i :: 0 <= i < |records| ==> Some(records[i]) == build(md[i], last + i + 1)
  {
    var records, md := [first] + rest, [entry] + mdRest;
    forall i | 0 <= i < |records|
      ensures Some(records[i]) == build(md[i], last + i + 1)
    {
      if i > 0 {
        assert records[i] == rest[i - 1] && md[i] == mdRest[i - 1];
      }
    }
  }

  /** Some entry of `md`, numbered from last + 1 on, has no record. */
  predicate AnyFails<R>(md: seq<WalkEntry>, last: nat, build: (WalkEntry, nat) -> Option<R>)
    decreases |md|
  {
    |md| > 0 && (build(md[0], last + 1).None? || AnyFails(md[1..], last + 1, build))
  }

  lemma {:induction false} AnyFailsExists<R>(md: seq<WalkEntry>, last: nat, build: (WalkEntry, nat) -> Option<R>)
    ensures AnyFails(md, last, build) <==> exists i :: 0 <= i < |md| && build(md[i], last + i + 1).None?
    decreases |md|
  {
    if |md| > 0 {
      AnyFailsExists(md[1..], last + 1, build);
      if exists j :: 0 <= j < |md| - 1 && build(md[1..][j], last + 1 + j + 1).None? {
        var j :| 0 <= j < |md| - 1 && build(md[1..][j], last + 1 + j + 1).None?;
        assert build(md[j + 1], last + (j + 1) + 1).None?;
      }
      if exists i :: 0 <= i < |md| && build(md[i], last + i + 1).None? {
        var i :| 0 <= i < |md| && build(md[i], last + i + 1).None?;
        if i > 0 {
          assert build(md[1..][i - 1], last + 1 + (i - 1) + 1).None?;
        }
      }
    }
  }

  lemma {:induction false} IndexFailsRec<R>(walk: seq<WalkEntry>, last: nat, build: (WalkEntry, nat) -> Option<R>)
    ensures IndexFrom(walk, last, build).None? <==> AnyFails(MarkdownEntries(walk), last, build)
    decreases |walk|
  {
    if |walk| > 0 {
      var md := MarkdownEntries(walk);
      var mdRest := MarkdownEntries(walk[1..]);
      if !IsMarkdown(walk[0].filename) {
        assert md == mdRest;
        IndexFailsRec(walk[1..], last, build);
      } else {
        IndexFailsRec(walk[1..], last + 1, build);
        assert md == [walk[0]] + mdRest;
        assert md[0] == walk[0] && md[1..] == mdRest;
      }
    }
  }

  /** The run fails exactly when some `.md` entry's record cannot be built. */
  lemma IndexFails<R>(walk: seq<WalkEntry>, last: nat, build: (WalkEntry, nat) -> Option<R>)
    ensures var md := MarkdownEntries(walk);
      IndexFrom(walk, last, build).None? <==> exists i :: 0 <= i < |md| && build(md[i], last + i + 1).None?
  {
    IndexFailsRec(walk, last, build);
    AnyFailsExists(MarkdownEntries(walk), last, build);
  }

  /**
   * Over a whole run that succeeds, with a builder that stamps each record
   * with the id it is given: one record per `.md` file, in walk order, the
   * i-th carrying id i + 1 (ids 1 .. n, no gaps, no repeats).
   */
  lemma RunIds<R>(walk: seq<WalkEntry>, build: (WalkEntry, nat) -> Option<R>, idOf: R -> nat, records: seq<R>)
    requires IndexFrom(walk, 0, build) == Some(records)
    requires forall e, n :: build(e, n).Some? ==> idOf(build(e, n).value) == n
    ensures var md := MarkdownEntries(walk);
      && |records| == |md|
      && forall i :: 0 <= i < |md| ==> idOf(records[i]) == i + 1 && Some(records[i]) == build(md[i], i + 1)
  {
    Numbering(walk, 0, build, records);
  }
}
