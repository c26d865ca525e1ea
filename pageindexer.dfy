/**
 * The record builder of the page indexer (`create_index_list`): for every
 * `.md` file of a directory walk it derives path segments, a URL and the
 * docsearch hierarchy maps, merges the configured frontmatter fields, and
 * numbers the records consecutively in walk order.
 *
 * The walk is a sequence of (root, filename, lines) entries in the order
 * `os.walk` yields them; `os.sep` is the configuration's `sep`.
 */
module PageIndexer {
  import opened Wrappers
  import opened Text
  import opened Frontmatter
  import opened Hierarchy
  import opened Paths
  import opened TagFields
  import opened Walk

  datatype Weight = Weight(position: int, level: int, pageRank: int)

  /** `docsearch_weight`: given to every record and never changed. */
  const DefaultWeight: Weight := Weight(1, 10, 0)

  /**
   * One run's settings: `walk_dir`, `base_level`, `base_url`, the frontmatter
   * fields aggregated into `tags`, and the path separator.
   */
  datatype Config = Config(walkDir: string, baseLevel: string, baseUrl: string,
                           tagFields: seq<string>, sep: char)

  /** `docsearch_mapping['tags']` as the command line sets it: every `-t` value, or none. */
  function TagFieldsOf(tagArgs: Option<seq<string>>): seq<string>
  {
    if tagArgs.Some? then tagArgs.value else []
  }

  /** Without `-t` there are no tag fields, so every record is built and its tags are []. */
  lemma NoTagFieldsNoTags(cfg: Config, entry: WalkEntry, id: nat, data: map<string, Value>)
    requires cfg.tagFields == TagFieldsOf(None)
    ensures RecordOf(cfg, entry, id, data).Some? && RecordOf(cfg, entry, id, data).value.tags == []
  {
    assert Tags(data, []) == Some([]);
  }

  /** One docsearch record; `pageType` is the record's `type`. */
  datatype Record = Record(
    objectID: nat,
    url: Value,
    content: Option<Value>,
    tags: seq<Value>,
    hierarchy: Slots,
    hierarchyComplete: Slots,
    hierarchyRadio: Slots,
    pageType: string,
    anchor: Option<string>,
    weight: Weight)

  /**
   * The record `create_index_list` builds for one `.md` file with the given
   * id, from the file's `parse_md` result `data`.
   */
  function RecordOf(cfg: Config, entry: WalkEntry, id: nat, data: map<string, Value>): (r: Option<Record>)
    ensures r.None? <==> Tags(data, cfg.tagFields).None?
    ensures r.Some? ==> r.value.objectID == id && Some(r.value.tags) == Tags(data, cfg.tagFields)
  {
    var tags := Tags(data, cfg.tagFields);
    if tags.None? then None
    else Some(Assemble(cfg, Subpaths(cfg.walkDir, entry.root, entry.filename, cfg.sep), id, data, tags.value))
  }

  lemma AssembleFields(cfg: Config, subpaths: seq<string>, id: nat, data: map<string, Value>, tags: seq<Value>)
    requires |subpaths| >= 1
    ensures Assemble(cfg, subpaths, id, data, tags) ==
      Record(id, if "url" in data then data["url"] else Str(PageUrl(cfg.baseUrl, subpaths)),
             if "content" in data then Some(data["content"]) else None, tags,
             HierarchyOf([cfg.baseLevel] + subpaths), HierarchyCompleteOf([cfg.baseLevel] + subpaths),
             RadioOf(|subpaths| - 1, subpaths[|subpaths| - 1]), Lvl(|subpaths| - 1), None, DefaultWeight)
  {
  }

  lemma BuiltRecord(cfg: Config, entry: WalkEntry, id: nat, data: map<string, Value>, tags: seq<Value>)
    requires Tags(data, cfg.tagFields) == Some(tags)
    ensures RecordOf(cfg, entry, id, data) ==
      Some(Assemble(cfg, Subpaths(cfg.walkDir, entry.root, entry.filename, cfg.sep), id, data, tags))
  {
  }

  /** The fields of a record once its segments and tags are known. */
  function Assemble(cfg: Config, subpaths: seq<string>, id: nat, data: map<string, Value>, tags: seq<Value>): Record
    requires |subpaths| >= 1
  {
    var maxLvl := |subpaths| - 1;
    Record(
      id,
      if "url" in data then data["url"] else Str(PageUrl(cfg.baseUrl, subpaths)),
      if "content" in data then Some(data["content"]) else None,
      tags,
      HierarchyOf([cfg.baseLevel] + subpaths),
      HierarchyCompleteOf([cfg.baseLevel] + subpaths),
      RadioOf(maxLvl, subpaths[maxLvl]),
      Lvl(maxLvl),
      None,
      DefaultWeight)
  }

  /**
   * URL and content of a record: the frontmatter's `url` replaces the built
   * URL only when present; `content` is copied when present.
   */
  lemma RecordUrlContent(cfg: Config, entry: WalkEntry, id: nat, data: map<string, Value>)
    requires Tags(data, cfg.tagFields).Some?
    ensures RecordOf(cfg, entry, id, data).Some?
    ensures var r := RecordOf(cfg, entry, id, data).value;
      var subpaths := Subpaths(cfg.walkDir, entry.root, entry.filename, cfg.sep);
      && r.url == (if "url" in data then data["url"] else Str(PageUrl(cfg.baseUrl, subpaths)))
      && r.content == (if "content" in data then Some(data["content"]) else None)
  {
    var subpaths := Subpaths(cfg.walkDir, entry.root, entry.filename, cfg.sep);
    var r := Assemble(cfg, subpaths, id, data, Tags(data, cfg.tagFields).value);
    BuiltRecord(cfg, entry, id, data, r.tags);
  }

  /**
   * The two seven-slot maps of a record, over `[base_level] + subpaths`:
   * lvl0 is the base level in `hierarchy` and "" in `hierarchy_complete`.
   */
  lemma RecordHierarchies(cfg: Config, entry: WalkEntry, id: nat, data: map<string, Value>)
    requires Tags(data, cfg.tagFields).Some?
    ensures RecordOf(cfg, entry, id, data).Some?
    ensures var r := RecordOf(cfg, entry, id, data).value;
      var list := [cfg.baseLevel] + Subpaths(cfg.walkDir, entry.root, entry.filename, cfg.sep);
      && r.hierarchy == HierarchyOf(list)
      && r.hierarchyComplete == HierarchyCompleteOf(list)
      && r.hierarchy[Lvl(0)] == Some(cfg.baseLevel)
      && r.hierarchyComplete[Lvl(0)] == Some("")
  {
    var subpaths := Subpaths(cfg.walkDir, entry.root, entry.filename, cfg.sep);
    var r := Assemble(cfg, subpaths, id, data, Tags(data, cfg.tagFields).value);
    BuiltRecord(cfg, entry, id, data, r.tags);
    var list := [cfg.baseLevel] + subpaths;
    assert r.hierarchy == HierarchyOf(list);
    assert r.hierarchyComplete == HierarchyCompleteOf(list);
  }

  /**
   * The radio map is the empty hierarchy with the last path segment at
   * level |subpaths| - 1 (one level above the `hierarchy` slot holding the
   * same name); `type` names that level; there is no anchor and the
   * weight is the default one whatever the depth.
   */
  lemma RecordRadioAndType(cfg: Config, entry: WalkEntry, id: nat, data: map<string, Value>)
    requires Tags(data, cfg.tagFields).Some?
    ensures RecordOf(cfg, entry, id, data).Some?
    ensures var r := RecordOf(cfg, entry, id, data).value;
      var subpaths := Subpaths(cfg.walkDir, entry.root, entry.filename, cfg.sep);
      var maxLvl := |subpaths| - 1;
      && r.hierarchyRadio == RadioOf(maxLvl, subpaths[maxLvl])
      && r.pageType == "lvl" + NatToString(maxLvl)
      && r.anchor == None
      && r.weight == Weight(1, 10, 0)
  {
    var subpaths := Subpaths(cfg.walkDir, entry.root, entry.filename, cfg.sep);
    var tags := Tags(data, cfg.tagFields).value;
    AssembleFields(cfg, subpaths, id, data, tags);
    BuiltRecord(cfg, entry, id, data, tags);
  }

  /** The record of one walk entry, from its lines through `parse_md`. */
  function PageRecord(cfg: Config, entry: WalkEntry, id: nat, yamlLoad: string -> map<string, Value>,
                      plainText: string -> string): Option<Record>
  {
    RecordOf(cfg, entry, id, FileData(entry.lines, yamlLoad, plainText))
  }

  /** Every record built from a file has a `content` value, taken from the frontmatter when it has one. */
  lemma PageRecordHasContent(cfg: Config, entry: WalkEntry, id: nat, yamlLoad: string -> map<string, Value>,
                             plainText: string -> string)
    requires Tags(FileData(entry.lines, yamlLoad, plainText), cfg.tagFields).Some?
    ensures PageRecord(cfg, entry, id, yamlLoad, plainText).Some?
    ensures var r := PageRecord(cfg, entry, id, yamlLoad, plainText).value;
      r.content.Some?
    ensures var r := PageRecord(cfg, entry, id, yamlLoad, plainText).value;
      var b := Route(entry.lines, false); var fm := yamlLoad(Concat(b.yaml));
      r.content.value == if "content" in fm then fm["content"] else Str(plainText(Concat(b.body)))
  {
  }

  /** The segmentation statements of the walk loop. */
  method SplitSubpaths(walkDir: string, root: string, filename: string, sep: char) returns (subpaths: seq<string>)
    ensures subpaths == Subpaths(walkDir, root, filename, sep)
  {
    var subpath := RStrip(Drop(root, |walkDir|), sep);
    subpaths := Split(LStrip(subpath, sep), sep);
    if filename != "index.md" {
      subpaths := subpaths[|subpaths| - 1 := DropLast(filename, 3)];
    }
  }

  /** The body of the walk loop for one `.md` file. */
  method IndexFile(cfg: Config, entry: WalkEntry, objectID: nat, yamlLoad: string -> map<string, Value>,
                   plainText: string -> string) returns (indexedItem: Option<Record>)
    ensures indexedItem == PageRecord(cfg, entry, objectID, yamlLoad, plainText)
  {
    var filedata := ParseMd(entry.lines, yamlLoad, plainText);
    var subpaths := SplitSubpaths(cfg.walkDir, entry.root, entry.filename, cfg.sep);
    var url := cfg.baseUrl + "/" + Join(subpaths, "/") + "/";
    assert url == PageUrl(cfg.baseUrl, subpaths);

    var itemUrl := Str(url);
    var content: Option<Value> := None;
    if "content" in filedata {
      content := Some(filedata["content"]);
    }
    if "url" in filedata {
      itemUrl := filedata["url"];
    }
    var tags := AggregateTags(filedata, cfg.tagFields);
    if tags.None? {
      return None;
    }

    assert itemUrl == if "url" in filedata then filedata["url"] else Str(PageUrl(cfg.baseUrl, subpaths));
    assert content == if "content" in filedata then Some(filedata["content"]) else None;

    var hierarchy, hierarchyComplete, hierarchyRadio, pageType := HierarchyFields(cfg.baseLevel, subpaths);
    indexedItem := Some(Record(objectID, itemUrl, content, tags.value, hierarchy, hierarchyComplete,
                               hierarchyRadio, pageType, None, DefaultWeight));
    AssembleFields(cfg, subpaths, objectID, filedata, tags.value);
    BuiltRecord(cfg, entry, objectID, filedata, tags.value);
  }

  /**
   * The hierarchy statements of the walk loop: `hierarchy` and
   * `hierarchy_complete` over `[base_level] + subpaths`, then
   * `hierarchy_radio` and `type` at level len(subpaths) - 1.
   */
  method HierarchyFields(baseLevel: string, subpaths: seq<string>)
    returns (hierarchy: Slots, hierarchyComplete: Slots, hierarchyRadio: Slots, pageType: string)
    requires |subpaths| >= 1
    ensures hierarchy == HierarchyOf([baseLevel] + subpaths)
    ensures hierarchyComplete == HierarchyCompleteOf([baseLevel] + subpaths)
    ensures hierarchyRadio == RadioOf(|subpaths| - 1, subpaths[|subpaths| - 1])
    ensures pageType == Lvl(|subpaths| - 1)
  {
    var hierarchyList := [baseLevel] + subpaths;
    hierarchy, hierarchyComplete := FillHierarchies(hierarchyList);
    hierarchyRadio := CreateEmptyHierarchy();
    var maxLvl := |subpaths| - 1;
    hierarchyRadio := hierarchyRadio[Lvl(maxLvl) := Some(subpaths[maxLvl])];
    pageType := "lvl" + NatToString(maxLvl);
  }

  /** How one `.md` file of the run becomes a record, given its id. */
  function Builder(cfg: Config, yamlLoad: string -> map<string, Value>, plainText: string -> string)
    : (WalkEntry, nat) -> Option<Record>
  {
    (entry: WalkEntry, id: nat) => PageRecord(cfg, entry, id, yamlLoad, plainText)
  }

  /**
   * `create_index_list`: walk the entries in order, give each `.md` file the
   * next id and append its record; a file whose tags cannot be aggregated
   * aborts the run (None).
   */
  method CreateIndexList(cfg: Config, walk: seq<WalkEntry>, yamlLoad: string -> map<string, Value>,
                         plainText: string -> string) returns (indexList: Option<seq<Record>>)
    ensures indexList == IndexFrom(walk, 0, Builder(cfg, yamlLoad, plainText))
  {
    var build := Builder(cfg, yamlLoad, plainText);
    var list: seq<Record> := [];
    var objectID: nat := 0;
    PrependNil(IndexFrom(walk, 0, build));
    assert walk[0..] == walk;
    for i := 0 to |walk|
      invariant IndexFrom(walk, 0, build) == Prepend(list, IndexFrom(walk[i..], objectID, build))
    {
      assert walk[i..][0] == walk[i] && walk[i..][1..] == walk[i + 1..];
      if IsMarkdown(walk[i].filename) {
        objectID := objectID + 1;
        var indexedItem := IndexFile(cfg, walk[i], objectID, yamlLoad, plainText);
        assert indexedItem == build(walk[i], objectID);
        if indexedItem.None? {
          return None;
        }
        PrependTwice(list, [indexedItem.value], IndexFrom(walk[i + 1..], objectID, build));
        list := list + [indexedItem.value];
      }
    }
    assert walk[|walk|..] == [];
    assert list + [] == list;
    indexList := Some(list);
  }

  /**
   * The record builder of a run stamps each record with the id it is
   * given, and fails on a file exactly when that file's tags cannot be
   * aggregated.
   */
  lemma BuilderContract(cfg: Config, yamlLoad: string -> map<string, Value>, plainText: string -> string)
    ensures var build := Builder(cfg, yamlLoad, plainText);
      forall e, n :: && (build(e, n).None? <==> Tags(FileData(e.lines, yamlLoad, plainText), cfg.tagFields).None?)
                     && (build(e, n).Some? ==> build(e, n).value.objectID == n)
  {
  }

  /**
   * A successful run of the indexer numbers its records 1 .. n, one per
   * `.md` file of the walk, in walk order.
   */
  lemma CreateIndexListIds(cfg: Config, walk: seq<WalkEntry>, yamlLoad: string -> map<string, Value>,
                           plainText: string -> string, records: seq<Record>)
    requires IndexFrom(walk, 0, Builder(cfg, yamlLoad, plainText)) == Some(records)
    ensures |records| == |MarkdownEntries(walk)|
    ensures forall i :: 0 <= i < |records| ==> records[i].objectID == i + 1
  {
    BuilderContract(cfg, yamlLoad, plainText);
    RunIds(walk, Builder(cfg, yamlLoad, plainText), (r: Record) => r.objectID, records);
  }
}
