/**
 The tag maps of tags.go.

 A `map[string]*string` is a map to nullable cells; no statement of the controller writes
 through such a pointer, so a cell's text is a constant and only its identity lives on the
 heap. An `acktags.Tags` is a Go map that ignoreSystemTags and syncAWSTags change in place,
 so it is an object.
 */
module AckTags {
  import opened Nullable

  type Tags = map<string, string>

  type TagValues = map<string, Option<string>>

  class StringCell {
    const text: string

    constructor (text: string)
      ensures this.text == text
    {
      this.text := text;
    }
  }

  type TagCells = map<string, StringCell?>

  class AckTagMap {
    var entries: Tags

    constructor ()
      ensures entries == map[]
    {
      entries := map[];
    }
  }

  /** The strings a map of pointers stands for. */
  function Deref(cells: TagCells): TagValues {
    map k | k in cells :: if cells[k] == null then None else Some(cells[k].text)
  }

  /** Nil tag values read as the empty string. */
  function ToTags(values: TagValues): Tags {
    map k | k in values :: values[k].GetOr("")
  }

  function ToValues(tags: Tags): TagValues {
    map k | k in tags :: Some(tags[k])
  }

  /** Writing tags as values and reading them back loses nothing. */
  lemma ValuesReadBack(tags: Tags)
    ensures ToTags(ToValues(tags)) == tags
  {
  }

  predicate IsAws(key: string) {
    "aws:" <= key
  }

  function AwsOnly(tags: Tags): Tags {
    map k | k in tags && IsAws(k) :: tags[k]
  }

  function UserOnly(tags: Tags): Tags {
    map k | k in tags && !IsAws(k) :: tags[k]
  }

  function WithoutSystem(tags: Tags, systemTags: seq<string>): Tags {
    map k | k in tags && !IsAws(k) && k !in systemTags :: tags[k]
  }

  /** acktags.Merge as documented: the defaults are added without overriding. */
  function Merge(tags: Tags, defaults: Tags): Tags {
    defaults + tags
  }

  /** No nil value, and no two keys sharing a cell. */
  ghost predicate SeparateCells(cells: TagCells) {
    && (forall k <- cells :: cells[k] != null)
    && (forall j <- cells, k <- cells :: j != k ==> cells[j] != cells[k])
  }

  method ConvertToOrderedACKTags(tags: TagCells) returns (result: AckTagMap, keyOrder: seq<string>)
    ensures fresh(result) && result.entries == ToTags(Deref(tags))
    ensures keyOrder == []
  {
    result := new AckTagMap();
    keyOrder := [];
    if |tags| == 0 {
      return;
    }
    var todo := tags.Keys;
    while todo != {}
      invariant todo <= tags.Keys
      invariant result.entries.Keys == tags.Keys - todo
      invariant forall k <- result.entries :: result.entries[k] == ToTags(Deref(tags))[k]
      decreases |todo|
    {
      var k :| k in todo;
      var v := tags[k];
      if v == null {
        result.entries := result.entries[k := ""];
      } else {
        result.entries := result.entries[k := v.text];
      }
      todo := todo - {k};
    }
  }

  method FromACKTags(tags: AckTagMap, keyOrder: seq<string>) returns (result: TagCells)
    ensures Deref(result) == ToValues(tags.entries)
    ensures SeparateCells(result)
    ensures forall k <- result :: fresh(result[k])
  {
    result := map[];
    var todo := tags.entries.Keys;
    while todo != {}
      invariant todo <= tags.entries.Keys
      invariant result.Keys == tags.entries.Keys - todo
      invariant SeparateCells(result)
      invariant forall k <- result :: fresh(result[k])
      invariant forall k <- result :: result[k].text == tags.entries[k]
      decreases |todo|
    {
      var k :| k in todo;
      var v := new StringCell(tags.entries[k]);
      result := result[k := v];
      todo := todo - {k};
    }
  }

  method IgnoreSystemTags(tags: AckTagMap, systemTags: seq<string>)
    modifies tags
    ensures tags.entries == WithoutSystem(old(tags.entries), systemTags)
  {
    var todo := tags.entries.Keys;
    while todo != {}
      invariant todo <= tags.entries.Keys <= old(tags.entries).Keys
      invariant forall k <- old(tags.entries) ::
        k in tags.entries <==> k in todo || (!IsAws(k) && k !in systemTags)
      invariant forall k <- tags.entries :: tags.entries[k] == old(tags.entries)[k]
      decreases |todo|
    {
      var k :| k in todo;
      if IsAws(k) || k in systemTags {
        tags.entries := tags.entries - {k};
      }
      todo := todo - {k};
    }
  }

  method SyncAWSTags(a: AckTagMap, b: AckTagMap)
    modifies a
    ensures a.entries == old(a.entries) + AwsOnly(old(b.entries))
  {
    ghost var target, source := a.entries, b.entries;
    var todo := b.entries.Keys;
    while todo != {}
      invariant todo <= source.Keys
      invariant b.entries == source
      invariant Overlaid(a.entries, target, source, todo)
      decreases |todo|
    {
      var k :| k in todo;
      if IsAws(k) {
        OverlayOne(a.entries, target, source, todo, k);
        a.entries := a.entries[k := b.entries[k]];
      }
      todo := todo - {k};
    }
    OverlaidIsSum(a.entries, target, source);
  }

  /** tags is target with the AWS tags of source written over it, but for the keys to do. */
  ghost predicate Overlaid(tags: Tags, target: Tags, source: Tags, todo: set<string>) {
    && (forall k :: k in tags <==> k in target || (k in source && IsAws(k) && k !in todo))
    && (forall k <- tags :: tags[k] == if k in source && IsAws(k) && k !in todo then source[k] else target[k])
  }

  lemma OverlayOne(tags: Tags, target: Tags, source: Tags, todo: set<string>, k: string)
    requires Overlaid(tags, target, source, todo) && k in todo && k in source && IsAws(k)
    ensures Overlaid(tags[k := source[k]], target, source, todo - {k})
  {
  }

  lemma OverlaidIsSum(tags: Tags, target: Tags, source: Tags)
    requires Overlaid(tags, target, source, {})
    ensures tags == target + AwsOnly(source)
  {
  }
}
