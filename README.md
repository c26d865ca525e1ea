# Hugo docsearch page indexer and `lastmod` updater, modelled in Dafny

Two small Hugo utilities are modelled here.

`docsearch-pageindexer.py` walks a content directory and builds one
docsearch search record for every `.md` file. For each file it:

- splits the frontmatter from the markdown body (`parse_md`);
- derives path segments and a URL from the file's directory;
- fills the seven-level `hierarchy`, `hierarchy_complete` and
  `hierarchy_radio` maps and sets `type`;
- aggregates the configured frontmatter fields into `tags`;
- numbers the records 1, 2, 3 … in walk order.

`update-lastmod.py` filters the lines of a page:

- inside every `---` block it replaces each line starting with `lastmod`
  with `lastmod: <local ISO time>`;
- at a closing `---` met before any `lastmod` line was seen, it inserts
  that line first;
- it then writes the buffer to the `-o` file, to the input file, or to
  standard output, or writes nothing on a dry run.

Modules:

- `Wrappers`: Option, with list prefixing on it.
- `Text`: the Python string operations used (`startswith`, `strip`,
  `split`, `join`, `str(int)`).
- `Frontmatter`: `parse_md`.
- `Hierarchy`: `create_empty_hierarchy`, and the level loop that fills
  `hierarchy` and `hierarchy_complete`.
- `Paths`: segments and URL.
- `TagFields`: `tags`.
- `Walk`: the walk and the numbering, for any record builder.
- `PageIndexer`: `create_index_list`.
- `Lastmod`: `update-lastmod.py`.

Each loop that builds a value (the line loops, the level loop, the walk)
is a method proved equal to a recursive specification function; the
straight-line steps (`SplitSubpaths`, `HierarchyFields`,
`ChooseDestination`) are methods proved equal to functions. The
properties are proved as lemmas about those functions.

The model follows the code, including where it differs from what its
comments or a reader would suggest:

- A file other than `index.md` **replaces** the last directory segment by
  its stem; it does not append one, although the comment at
  docsearch-pageindexer.py:85 says that such files "become folders". So
  `guides/setup.md` has the segments `["setup"]`.
- `hierarchy_complete` at level k joins the entries **before** k, so lvl0
  is `""`.
- The radio entry and `type` sit at level `len(subpaths) - 1`, one below
  the last `hierarchy` entry.
- `title` and `linktitle` are not used.
- `weight` is `{1, 10, 0}` for every record.
- The root `index.md` gets the segments `[""]` and the URL
  `base_url + "//"`.

## Model

| member | source | states |
|---|---|---|
| Text.RStrip | docsearch-pageindexer.py:83 | `rstrip(sep)` keeps a prefix of the input, removes only separators, and leaves no separator at the end |
| Text.LStrip | docsearch-pageindexer.py:84 | `lstrip(sep)` leaves no separator at the start |
| Text.Split | docsearch-pageindexer.py:84 | `split(sep)` yields at least one part, no part holds the separator, and joining the parts gives the input back |
| Text.SplitJoin | docsearch-pageindexer.py:84 | splitting a separator-join of separator-free parts gives those parts back |
| Text.NatToStringInjective | docsearch-pageindexer.py:122 | `str(level)` of distinct levels differ, so the keys `"lvl" + str(level)` differ |
| Frontmatter.SplitLines | docsearch-pageindexer.py:33-47 | the loop's `yaml_string` and `markdown_content` are the concatenations of the lines routed to YAML and to the body |
| Frontmatter.RouteStep | docsearch-pageindexer.py:37-47 | one more line: a `---` line toggles `in_yaml` and goes nowhere; any other line goes to YAML inside a block and to the body outside one |
| Frontmatter.RouteAppend | docsearch-pageindexer.py:37-47 | routing two runs of lines in a row equals routing the first, then the second from the state the first leaves |
| Frontmatter.InYamlParity | docsearch-pageindexer.py:38-43 | the scan is inside YAML exactly after an odd number of `---` lines |
| Frontmatter.LineRouting | docsearch-pageindexer.py:38-47 | line i goes to YAML iff it is not a delimiter and an odd number of delimiters precede it, to the body iff an even number do, and nowhere if it is a delimiter |
| Frontmatter.RoutePrefix | docsearch-pageindexer.py:37-47 | the two buffers only grow as the scan proceeds |
| Frontmatter.RoutePartition | docsearch-pageindexer.py:37-47 | every input line lands in exactly one of the YAML buffer, the body buffer and the dropped delimiters, and neither buffer holds a `---` line |
| Frontmatter.NoDelimiterAllBody | docsearch-pageindexer.py:37-47 | a file without `---` lines is all body with empty YAML |
| Frontmatter.ThreeDelimiters | docsearch-pageindexer.py:37-47 | text before the first `---` is body and a third `---` reopens YAML |
| Frontmatter.WithContent | docsearch-pageindexer.py:52-64 | the result always has `content`; an existing `content` is kept, otherwise the body's plain text is stored; no other key changes |
| Frontmatter.ParseMd | docsearch-pageindexer.py:30-65 | `parse_md` returns the parsed frontmatter with the `content` rule applied, and it always holds `content` |
| Hierarchy.EmptyHierarchy | docsearch-pageindexer.py:142-146 | the keys are exactly the seven level keys and every value is None |
| Hierarchy.CreateEmptyHierarchy | docsearch-pageindexer.py:142-146 | the loop builds exactly the seven level keys, all None |
| Hierarchy.LevelKeysAreLvl0To6 | docsearch-pageindexer.py:144-145 | the seven level keys are `lvl0` … `lvl6` |
| Hierarchy.HierarchyOf | docsearch-pageindexer.py:120-122 | level k holds `hierarchy_list[k]` below the list's length and None from there on, for all seven levels |
| Hierarchy.HierarchyCompleteOf | docsearch-pageindexer.py:120-123 | level k holds the " > "-join of the entries before k below the list's length, otherwise None; lvl0 is `""` |
| Hierarchy.FillHierarchies | docsearch-pageindexer.py:118-125 | the `range(7)` loop produces exactly `HierarchyOf` and `HierarchyCompleteOf` of the list |
| Hierarchy.RadioOf | docsearch-pageindexer.py:128-130 | the radio map has the seven keys plus the chosen level's key; the chosen level holds the name and every other entry is None |
| Hierarchy.RadioOneBelow | docsearch-pageindexer.py:120-130 | for fewer than seven segments, the radio entry holds the name that `hierarchy` holds one level further down |
| Paths.RelativeDir | docsearch-pageindexer.py:83-84 | the stripped relative directory neither starts nor ends with the separator |
| Paths.Subpaths | docsearch-pageindexer.py:83-87 | as many segments as directory parts (at least one), the same parts before the last, and a last part that is the stem of a non-`index.md` file |
| Paths.WithStem | docsearch-pageindexer.py:86-87 | `index.md` keeps the directory segments; any other file replaces the last one by its name without `.md` |
| Paths.UrlShape | docsearch-pageindexer.py:91-92 | the URL starts with `base_url + "/"` and ends with `/`, and its middle splits back into the segments |
| Paths.RootIndexSegments | docsearch-pageindexer.py:83-90 | `index.md` at the walk root has the segments `[""]` |
| Paths.RootIndexPage | docsearch-pageindexer.py:83-92 | `index.md` at the walk root has the segments `[""]` and the URL `base_url + "//"` |
| Paths.RootLeafPage | docsearch-pageindexer.py:83-87 | any other file at the walk root has its stem as its only segment |
| Paths.NestedPageSegments | docsearch-pageindexer.py:83-87 | in `walk_dir/d1/…/dn`, `index.md` gets `[d1, …, dn]` and another file gets `[d1, …, d(n-1), stem]` |
| TagFields.AggregateTags | docsearch-pageindexer.py:110-115 | the aggregation loop yields the tags of the configured fields in order, or fails where `extend` raises |
| TagFields.TagsAppend | docsearch-pageindexer.py:112-114 | the tags of two field lists in a row are the first list's tags followed by the second's |
| TagFields.TagsDefined | docsearch-pageindexer.py:112-114 | aggregation succeeds iff no configured field present on the page holds a non-list, non-string value |
| TagFields.TagsOfMissingFields | docsearch-pageindexer.py:112-114 | fields the page lacks contribute nothing; no fields give `[]` |
| TagFields.TagsNotDeduplicated | docsearch-pageindexer.py:112-114 | a field named twice contributes its items twice |
| Walk.Numbering | docsearch-pageindexer.py:74-79 | one record per `.md` file in walk order, none for other files, and the i-th record is the i-th `.md` file's record with id last + i + 1 |
| Walk.IndexFails | docsearch-pageindexer.py:74-138 | the run fails iff some `.md` file's record cannot be built |
| Walk.RunIds | docsearch-pageindexer.py:72-79 | a successful run gives the ids 1 … n to the n `.md` files, in walk order, without gaps or repeats |
| PageIndexer.NoTagFieldsNoTags | docsearch-pageindexer.py:177-180 | without `-t` every record is built and its tags are `[]` |
| PageIndexer.RecordOf | docsearch-pageindexer.py:78-138 | a record exists iff the tags aggregate; it carries the given id and those tags |
| PageIndexer.RecordUrlContent | docsearch-pageindexer.py:101-106 | the frontmatter's `url` replaces the built URL when present; `content` is copied when present |
| PageIndexer.RecordHierarchies | docsearch-pageindexer.py:117-125 | `hierarchy` and `hierarchy_complete` are built over `[base_level] + subpaths`, with lvl0 the base level and `""` respectively |
| PageIndexer.RecordRadioAndType | docsearch-pageindexer.py:127-136 | radio and `type` at level len(subpaths) - 1 from the last segment, no anchor, weight (1, 10, 0) |
| PageIndexer.PageRecordHasContent | docsearch-pageindexer.py:98-106 | every built record has `content`: the frontmatter's, or else the body's plain text |
| PageIndexer.SplitSubpaths | docsearch-pageindexer.py:83-87 | the segmentation statements compute `Subpaths` |
| PageIndexer.HierarchyFields | docsearch-pageindexer.py:117-132 | the hierarchy statements yield the two filled maps, the radio map and `type` at level len(subpaths) - 1 |
| PageIndexer.IndexFile | docsearch-pageindexer.py:78-138 | the loop body for one `.md` file yields that file's record |
| PageIndexer.CreateIndexList | docsearch-pageindexer.py:68-140 | the walk loop yields the numbered records of the `.md` files, or fails (None) on the first file whose tags raise |
| PageIndexer.BuilderContract | docsearch-pageindexer.py:79-115 | the per-file builder stamps each record with its id and fails exactly when the tags raise |
| PageIndexer.CreateIndexListIds | docsearch-pageindexer.py:72-79 | a successful run of the indexer gives one record per `.md` file, numbered 1 … n in walk order |
| Lastmod.FormatOffset | update-lastmod.py:24 | inserts one colon after the first three characters (or at the end of a shorter string) and keeps all other characters in place |
| Lastmod.FormatOffsetInverse | update-lastmod.py:24 | removing the inserted colon gives the offset back |
| Lastmod.FormatOffsetExample | update-lastmod.py:24 | `+0200` becomes `+02:00` |
| Lastmod.LocalIsoTime | update-lastmod.py:20-25 | the clock text followed by exactly the formatted offset |
| Lastmod.NewLastmod | update-lastmod.py:28-30 | the new line starts with `lastmod: `, is never a delimiter, ends in a newline, and the time can be read back from it |
| Lastmod.FilterLines | update-lastmod.py:46-90 | the loop's buffer is the rewrite of the input, and `filename` is None for empty input, False for stdin, else the file name |
| Lastmod.RewriteSnoc | update-lastmod.py:52-90 | one more line adds that line's contribution to the buffer and the state after it |
| Lastmod.PassThrough | update-lastmod.py:75-90 | outside a block, lines without `---` pass through unchanged and change no state |
| Lastmod.NoBlockNoChange | update-lastmod.py:75-90 | input without `---` lines comes out unchanged |
| Lastmod.InsideBlock | update-lastmod.py:84-90 | inside a block every `lastmod` line is replaced, not duplicated, other lines are kept, and found is set iff the block has one |
| Lastmod.StepAt | update-lastmod.py:52-90 | the output splits into the output before line i, line i's contribution, and the output after it |
| Lastmod.InsertionAt | update-lastmod.py:75-80 | a closing `---` met with no `lastmod` found comes out with the new line just before it |
| Lastmod.ReplacementAt | update-lastmod.py:84-87 | a line starting with `lastmod` inside a block comes out as the new line alone, and found is set from then on |
| Lastmod.PrefixMatchExample | update-lastmod.py:84 | `lastmodified:` is replaced too, because the match is on a prefix |
| Lastmod.SingleBlock | update-lastmod.py:37-90 | for a page with one block, the block's `lastmod` lines are replaced, one new line is added before the closing `---` iff there was none, and everything else is unchanged |
| Lastmod.SingleBlockLength | update-lastmod.py:37-90 | with one block, the output has one line more iff the block has no `lastmod` line |
| Lastmod.LengthIsInputPlusClosings | update-lastmod.py:75-90 | the output has one extra line for each closing `---` met before any `lastmod` was found |
| Lastmod.FoundSticky | update-lastmod.py:47-87 | `lastmod_found` is never reset, so nothing is inserted after it is set |
| Lastmod.EveryBlockGetsOne | update-lastmod.py:75-81 | with no `lastmod` line anywhere, every closed block gets one new line |
| Lastmod.DelimitersPreserved | update-lastmod.py:75-90 | the output's `---` lines are the input's, in the same order |
| Lastmod.RewriteIdempotent | update-lastmod.py:37-90 | rewriting the output again with the same time changes nothing |
| Lastmod.ChooseDestination | update-lastmod.py:93-127 | a dry run writes nowhere; otherwise `-o` wins, then a truthy input filename, then stdout |
| Lastmod.UpdateLastmod | update-lastmod.py:37-127 | the buffer is the rewrite with `lastmod: <time>`; the input file is rewritten in place unless `-o` or a dry run; stdin and empty input go to stdout |

## Left out

- The per-key loop over `docsearch_mapping.items()`
  (docsearch-pageindexer.py:104-136) is unrolled into straight-line code in
  `IndexFile`, because `Config` fixes its three keys (`content`, `url`,
  `tags`); a mapping with other keys or another order is not modelled.
- File and terminal I/O are not modelled. `os.walk` is a sequence of
  (root, filename, lines) entries in walk order. `fileinput` is a
  `Source` together with its lines. Writes are a `Destination` value.
- The walk order itself and the `subdirs` list are not modelled: they come
  from the file system.
- `yaml.load` is a parameter returning a map; a YAML error or a document
  that is not a mapping is not modelled.
- Nested mappings as frontmatter values are not modelled. `Value` has
  strings, lists and other scalars. `extend` with a dict would add its
  keys, so such a value would also contribute tags.
- The markdown-to-plain-text step (mistune, BeautifulSoup and the
  shortcode `re.sub`) is a parameter.
- JSON output, key order and pretty-printing are not modelled.
- Command-line parsing is not modelled. `argparse`, the `-t` handling
  (only its result, `TagFieldsOf`) and the manual scan of flags are left
  out. Note that `arg[arg.find("=") + 1]` takes a single character as the
  `-o` file name. The model takes the `-o` value as given.
- Watch mode, `KeyboardInterrupt` and the verbose/debug messages to
  standard error are not modelled, nor is the "content exists" message.
- Only one input file per run is modelled; `fileinput` over several files
  is not.
- The two `datetime.now` calls are not modelled. They are the `clock` and
  `offset` parameters, so a clock tick between them is not represented.
- The hierarchy code is nested by mistake inside the per-field mapping
  loop. The model builds it once per record. The repetition rebuilds the
  same values, so the final record is the same.
- Every record shares one `docsearch_weight` dictionary object. The model
  gives each record the value (1, 10, 0), so the aliasing is not
  represented.
- The global `docsearch_mapping` is a `Config` value. Its `content` and
  `url` entries are fixed: `content` comes from `content` and `url` from
  `url`.
- For the page indexer, only the failure of `extend` on a non-list,
  non-string tag value is modelled; other exceptions are not.
