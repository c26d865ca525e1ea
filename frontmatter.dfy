/**
 * The frontmatter splitter of the page indexer (`parse_md`): one scan over
 * the lines of a markdown file that toggles between "inside YAML" and
 * "outside YAML" on every line starting with `---`, sending the other
 * lines to the YAML text or to the markdown body, followed by the rule
 * that the parsed frontmatter always ends up with a `content` key.
 *
 * The YAML parser and the markdown-to-plain-text extraction (markdown
 * rendering, HTML tag stripping, removal of `{{% ... %}}` shortcodes) are
 * given as functions.
 */
module Frontmatter {
  import opened Text

  /** A value of the parsed frontmatter: a string, a list, or any other scalar. */
  datatype Value = Str(s: string) | List(items: seq<Value>) | Scalar(text: string)

  /** The lines sent to each buffer, in the order they were read. */
  datatype Buffers = Buffers(yaml: seq<string>, body: seq<string>)

  /** The scan of `parse_md`, started with the given value of `in_yaml`. */
  function Route(lines: seq<string>, inYaml: bool): Buffers
    decreases |lines|
  {
    if |lines| == 0 then Buffers([], [])
    else if IsYamlDelimiter(lines[0]) then Route(lines[1..], !inYaml)
    else
      var rest := Route(lines[1..], inYaml);
      if inYaml then Buffers([lines[0]] + rest.yaml, rest.body)
      else Buffers(rest.yaml, [lines[0]] + rest.body)
  }

  /** The value of `in_yaml` once the scan has read all of `lines`. */
  function InYamlAfter(lines: seq<string>, inYaml: bool): bool
    decreases |lines|
  {
    if |lines| == 0 then inYaml
    else InYamlAfter(lines[1..], if IsYamlDelimiter(lines[0]) then !inYaml else inYaml)
  }

  function CountDelimiters(lines: seq<string>): nat
  {
    if |lines| == 0 then 0
    else (if IsYamlDelimiter(lines[0]) then 1 else 0) + CountDelimiters(lines[1..])
  }

  /**
   * The loop of `parse_md`: `yamlString` and `markdownContent` are what
   * `+=` builds from the lines routed to each buffer.
   */
  method SplitLines(lines: seq<string>) returns (yamlString: string, markdownContent: string)
    ensures yamlString == Concat(Route(lines, false).yaml)
    ensures markdownContent == Concat(Route(lines, false).body)
  {
    var inYaml := false;
    yamlString, markdownContent := "", "";
    var i := 0;
    while i < |lines|
      invariant 0 <= i <= |lines|
      invariant inYaml == InYamlAfter(lines[..i], false)
      invariant yamlString == Concat(Route(lines[..i], false).yaml)
      invariant markdownContent == Concat(Route(lines[..i], false).body)
    {
      var line := lines[i];
      assert lines[..i + 1] == lines[..i] + [line];
      RouteStep(lines[..i], line, false);
      ghost var before := Route(lines[..i], false);
      if IsYamlDelimiter(line) {
        if inYaml {
          inYaml := false;
        } else {
          inYaml := true;
        }
      } else if inYaml {
        ConcatSnoc(before.yaml, line);
        yamlString := yamlString + line;
      } else {
        ConcatSnoc(before.body, line);
        markdownContent := markdownContent + line;
      }
      i := i + 1;
    }
    assert lines[..i] == lines;
  }

  /** One more line for the scan: where it goes and the state it leaves. */
  lemma RouteStep(prefix: seq<string>, line: string, inYaml: bool)
    ensures var b, s := Route(prefix, inYaml), InYamlAfter(prefix, inYaml);
      && Route(prefix + [line], inYaml) == (if IsYamlDelimiter(line) then b
           else if s then Buffers(b.yaml + [line], b.body)
           else Buffers(b.yaml, b.body + [line]))
      && InYamlAfter(prefix + [line], inYaml) == (if IsYamlDelimiter(line) then !s else s)
  {
    RouteAppend(prefix, [line], inYaml);
    assert [line][1..] == [];
  }

  /**
   * Routing a concatenation: the first part is routed, then the second part
   * from the state the first one left; nothing routed earlier moves.
   */
  lemma {:induction false} RouteAppend(a: seq<string>, b: seq<string>, inYaml: bool)
    ensures Route(a + b, inYaml).yaml == Route(a, inYaml).yaml + Route(b, InYamlAfter(a, inYaml)).yaml
    ensures Route(a + b, inYaml).body == Route(a, inYaml).body + Route(b, InYamlAfter(a, inYaml)).body
    ensures InYamlAfter(a + b, inYaml) == InYamlAfter(b, InYamlAfter(a, inYaml))
    decreases |a|
  {
    if |a| == 0 {
      assert a + b == b;
    } else {
      assert (a + b)[0] == a[0] && (a + b)[1..] == a[1..] + b;
      RouteAppend(a[1..], b, if IsYamlDelimiter(a[0]) then !inYaml else inYaml);
    }
  }

  /** The scanner is inside YAML exactly after an odd number of delimiter lines. */
  lemma {:induction false} InYamlParity(lines: seq<string>, inYaml: bool)
    ensures InYamlAfter(lines, inYaml) == (inYaml != (CountDelimiters(lines) % 2 == 1))
    decreases |lines|
  {
    if |lines| > 0 {
      InYamlParity(lines[1..], if IsYamlDelimiter(lines[0]) then !inYaml else inYaml);
    }
  }

  /**
   * Where line i goes: a delimiter line goes to neither buffer; any other
   * line is appended to the YAML buffer when an odd number of delimiter
   * lines precede it and to the body otherwise. So lines before the first
   * `---` are body, and a third `---` reopens YAML.
   */
  lemma LineRouting(lines: seq<string>, i: nat)
    requires i < |lines|
    ensures var before, after := Route(lines[..i], false), Route(lines[..i + 1], false);
      if IsYamlDelimiter(lines[i]) then after == before
      else if CountDelimiters(lines[..i]) % 2 == 1 then after == Buffers(before.yaml + [lines[i]], before.body)
      else after == Buffers(before.yaml, before.body + [lines[i]])
  {
    assert lines[..i + 1] == lines[..i] + [lines[i]];
    RouteStep(lines[..i], lines[i], false);
    InYamlParity(lines[..i], false);
  }

  /** The buffers only grow as the scan goes on: what is routed stays, in order. */
  lemma RoutePrefix(lines: seq<string>, i: nat)
    requires i <= |lines|
    ensures Route(lines[..i], false).yaml <= Route(lines, false).yaml
    ensures Route(lines[..i], false).body <= Route(lines, false).body
  {
    assert lines == lines[..i] + lines[i..];
    RouteAppend(lines[..i], lines[i..], false);
  }

  /**
   * Every line goes to exactly one place: the YAML buffer, the body buffer,
   * or (for delimiter lines) nowhere; neither buffer holds a delimiter line.
   */
  lemma RoutePartition(lines: seq<string>, inYaml: bool)
    ensures multiset(Route(lines, inYaml).yaml) + multiset(Route(lines, inYaml).body)
            + multiset(DelimiterLines(lines)) == multiset(lines)
    ensures forall l :: l in Route(lines, inYaml).yaml ==> !IsYamlDelimiter(l)
    ensures forall l :: l in Route(lines, inYaml).body ==> !IsYamlDelimiter(l)
  {
    RouteMultiset(lines, inYaml);
    RouteNoDelimiter(lines, inYaml);
  }

  lemma {:induction false} RouteMultiset(lines: seq<string>, inYaml: bool)
    ensures multiset(Route(lines, inYaml).yaml) + multiset(Route(lines, inYaml).body)
            + multiset(DelimiterLines(lines)) == multiset(lines)
    decreases |lines|
  {
    if |lines| > 0 {
      var x, rest := lines[0], lines[1..];
      assert lines == [x] + rest;
      assert multiset(lines) == multiset{x} + multiset(rest);
      if IsYamlDelimiter(x) {
        RouteMultiset(rest, !inYaml);
        assert DelimiterLines(lines) == [x] + DelimiterLines(rest);
      } else {
        RouteMultiset(rest, inYaml);
        assert DelimiterLines(lines) == DelimiterLines(rest);
        var r := Route(rest, inYaml);
        if inYaml {
          assert multiset([x] + r.yaml) == multiset{x} + multiset(r.yaml);
        } else {
          assert multiset([x] + r.body) == multiset{x} + multiset(r.body);
        }
      }
    }
  }

  lemma {:induction false} RouteNoDelimiter(lines: seq<string>, inYaml: bool)
    ensures forall l :: l in Route(lines, inYaml).yaml ==> !IsYamlDelimiter(l)
    ensures forall l :: l in Route(lines, inYaml).body ==> !IsYamlDelimiter(l)
    decreases |lines|
  {
    if |lines| > 0 {
      RouteNoDelimiter(lines[1..], if IsYamlDelimiter(lines[0]) then !inYaml else inYaml);
    }
  }

  /** A file without any `---` line is all body. */
  lemma {:induction false} NoDelimiterAllBody(lines: seq<string>)
    requires forall i :: 0 <= i < |lines| ==> !IsYamlDelimiter(lines[i])
    ensures Route(lines, false) == Buffers([], lines)
    decreases |lines|
  {
    if |lines| > 0 {
      NoDelimiterAllBody(lines[1..]);
      assert [lines[0]] + lines[1..] == lines;
    }
  }

  /**
   * The `content` rule of `parse_md`: the result always holds `content`;
   * a `content` value the frontmatter already has is kept, otherwise the
   * text derived from the body is stored; no other key changes.
   */
  function WithContent(data: map<string, Value>, derived: string): (r: map<string, Value>)
    ensures "content" in r
    ensures r.Keys == data.Keys + {"content"}
    ensures forall k :: k in data ==> r[k] == data[k]
    ensures "content" !in data ==> r["content"] == Str(derived)
  {
    if "content" in data then data else data["content" := Str(derived)]
  }

  /** What `parse_md` returns for a file with the given lines. */
  function FileData(lines: seq<string>, yamlLoad: string -> map<string, Value>,
                    plainText: string -> string): map<string, Value>
  {
    var b := Route(lines, false);
    WithContent(yamlLoad(Concat(b.yaml)), plainText(Concat(b.body)))
  }

  /**
   * `parse_md`: split the lines, parse the YAML text (an empty or missing
   * document parses to the empty map), and add `content` from the body
   * when the frontmatter has none.
   */
  method ParseMd(lines: seq<string>, yamlLoad: string -> map<string, Value>,
                 plainText: string -> string) returns (mdData: map<string, Value>)
    ensures mdData == FileData(lines, yamlLoad, plainText)
    ensures "content" in mdData
  {
    var yamlString, markdownContent := SplitLines(lines);
    mdData := yamlLoad(yamlString);
    if "content" !in mdData {
      mdData := mdData["content" := Str(plainText(markdownContent))];
    }
  }

  /** A third delimiter reopens YAML; text before the first one is body. */
  lemma ThreeDelimiters()
    ensures Route(["intro\n", "---\n", "title: A\n", "---\n", "text\n", "---\n", "tail: B\n"], false)
            == Buffers(["title: A\n", "tail: B\n"], ["intro\n", "text\n"])
  {
    var lines := ["intro\n", "---\n", "title: A\n", "---\n", "text\n", "---\n", "tail: B\n"];
    NotDelimiter("intro\n");
    NotDelimiter("title: A\n");
    NotDelimiter("text\n");
    NotDelimiter("tail: B\n");
    assert IsYamlDelimiter("---\n");
    assert Route(lines[6..], true) == Buffers(["tail: B\n"], []);
    assert Route(lines[5..], false) == Buffers(["tail: B\n"], []);
    assert Route(lines[4..], false) == Buffers(["tail: B\n"], ["text\n"]);
    assert Route(lines[3..], true) == Buffers(["tail: B\n"], ["text\n"]);
    assert Route(lines[2..], true) == Buffers(["title: A\n", "tail: B\n"], ["text\n"]);
    assert Route(lines[1..], false) == Buffers(["title: A\n", "tail: B\n"], ["text\n"]);
  }
}
