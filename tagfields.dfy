/** The `tags` attribute: the configured frontmatter fields, concatenated as `list.extend` does. */
module TagFields {
  import opened Wrappers
  import opened Frontmatter

  /** What `list.extend(v)` adds: a list's items, a string's characters; other values raise. */
  function TagItems(v: Value): Option<seq<Value>>
  {
    match v
    case List(items) => Some(items)
    case Str(s) => Some(seq(|s|, i requires 0 <= i < |s| => Str([s[i]])))
    case Scalar(_) => None
  }

  /** The aggregation loop for `tags`, over the configured fields in order. */
  function Tags(data: map<string, Value>, fields: seq<string>): Option<seq<Value>>
    decreases |fields|
  {
    if |fields| == 0 then Some([])
    else
      var rest := Tags(data, fields[1..]);
      if fields[0] !in data then rest
      else
        var items := TagItems(data[fields[0]]);
        if items.None? then None else Prepend(items.value, rest)
  }

  /** The `tags` loop of `create_index_list`; None where `extend` raises. */
  method AggregateTags(filedata: map<string, Value>, fields: seq<string>) returns (aggregated: Option<seq<Value>>)
    ensures aggregated == Tags(filedata, fields)
  {
    var acc: seq<Value> := [];
    PrependNil(Tags(filedata, fields));
    assert fields[0..] == fields;
    for i := 0 to |fields|
      invariant Tags(filedata, fields) == Prepend(acc, Tags(filedata, fields[i..]))
    {
      assert fields[i..][0] == fields[i] && fields[i..][1..] == fields[i + 1..];
      if fields[i] in filedata {
        var items := TagItems(filedata[fields[i]]);
        if items.None? {
          return None;
        }
        PrependTwice(acc, items.value, Tags(filedata, fields[i + 1..]));
        acc := acc + items.value;
      }
    }
    assert fields[|fields|..] == [];
    assert acc + [] == acc;
    aggregated := Some(acc);
  }

  /** Tags of two field lists in a row: the first one's tags, then the second's. */
  lemma {:induction false} TagsAppend(data: map<string, Value>, a: seq<string>, b: seq<string>)
    ensures Tags(data, a + b) ==
      if Tags(data, a).None? then None else Prepend(Tags(data, a).value, Tags(data, b))
    decreases |a|
  {
    if |a| > 0 {
      assert (a + b)[0] == a[0] && (a + b)[1..] == a[1..] + b;
      TagsAppend(data, a[1..], b);
      if a[0] in data && TagItems(data[a[0]]).Some? && Tags(data, a[1..]).Some? {
        PrependTwice(TagItems(data[a[0]]).value, Tags(data, a[1..]).value, Tags(data, b));
      }
    } else {
      assert a + b == b;
      PrependNil(Tags(data, b));
    }
  }

  /** Aggregation succeeds exactly when no present configured field holds a plain scalar. */
  lemma {:induction false} TagsDefined(data: map<string, Value>, fields: seq<string>)
    ensures Tags(data, fields).Some? <==>
      forall i :: 0 <= i < |fields| && fields[i] in data ==> !data[fields[i]].Scalar?
    decreases |fields|
  {
    if |fields| > 0 {
      TagsDefined(data, fields[1..]);
      assert forall i :: 1 <= i < |fields| ==> fields[i] == fields[1..][i - 1];
    }
  }

  /** Fields the page does not have contribute nothing; no fields gives []. */
  lemma {:induction false} TagsOfMissingFields(data: map<string, Value>, fields: seq<string>)
    requires forall i :: 0 <= i < |fields| ==> fields[i] !in data
    ensures Tags(data, fields) == Some([])
    decreases |fields|
  {
    if |fields| > 0 {
      TagsOfMissingFields(data, fields[1..]);
    }
  }

  /** The same list field named twice contributes its items twice: nothing is deduplicated. */
  lemma TagsNotDeduplicated(data: map<string, Value>, field: string, items: seq<Value>)
    requires field in data && data[field] == List(items)
    ensures Tags(data, [field, field]) == Some(items + items)
  {
    assert [field, field][1..] == [field];
    assert [field][1..] == [];
    assert items + [] == items;
    assert Tags(data, [field]) == Some(items);
  }
}
