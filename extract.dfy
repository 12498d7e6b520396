/** The metadata extractor: the record `scrapePage` builds from a fetched page,
    the `isIndexable` rule and `getSchemaTypes` over the page's JSON-LD blocks. */
module Extract {
  import opened Js
  import opened Records

  // ---------------------------------------------------------------- isIndexable

  const Noindex: string := "noindex"

  /** `/noindex/i` matches `s` at position `i`. Without the `u` flag a character
      matches a pattern letter when both upper-case to the same character, and
      a non-ASCII character never folds onto an ASCII one. */
  predicate NoindexAt(s: string, i: int)
    requires 0 <= i && i + |Noindex| <= |s|
  {
    forall k :: 0 <= k < |Noindex| ==> UpperAscii(s[i + k]) == UpperAscii(Noindex[k])
  }

  /** `s` holds "noindex" in any mix of upper and lower case. */
  ghost predicate ContainsNoindex(s: string) {
    exists i :: 0 <= i && i + |Noindex| <= |s| && NoindexAt(s, i)
  }

  /** `/noindex/i.test(s)`, searching from position `from` on. */
  function TestNoindex(s: string, from: nat): (r: bool)
    ensures r <==> exists i :: from <= i && i + |Noindex| <= |s| && NoindexAt(s, i)
    decreases |s| - from
  {
    if from + |Noindex| > |s| then false
    else NoindexAt(s, from) || TestNoindex(s, from + 1)
  }

  /** `!(robotsContent && /noindex/i.test(robotsContent))`: a page is indexable
      unless it has a robots directive mentioning "noindex" in any case. */
  function IsIndexable(robots: Option<string>): (r: bool)
    ensures !r <==> robots.Some? && ContainsNoindex(robots.value)
    ensures robots.None? || robots == Some("") ==> r
  {
    !(robots.Some? && robots.value != "" && TestNoindex(robots.value, 0))
  }

  // ---------------------------------------------------------------- JSON-LD types

  /** An entry of a `@graph` array: `null` (reading `item['@type']` throws), or a
      value with an optional `@type`. */
  datatype Item = NullItem | Entity(typ: Option<string>)

  /** The `@graph` property: missing or falsy, an array (truthy even when empty), or
      some other truthy value, on which `forEach` is not a function and throws. */
  datatype Graph = NoGraph | GraphArray(items: seq<Item>) | GraphOther

  /** One `application/ld+json` script after `JSON.parse`: the parse threw, the text
      was `null` (reading `@graph` throws), or a value with `@graph` and `@type`. */
  datatype Block = Unparsable | JsonNull | JsonValue(graph: Graph, typ: Option<string>)

  /** `if (x['@type']) schemaTypes.push(x['@type'])`. */
  function TypeName(t: Option<string>): (r: seq<string>)
    ensures |r| <= 1 && (r != [] <==> t.Some? && t.value != "")
    ensures r != [] ==> r[0] == t.value
  {
    if t.Some? && t.value != "" then [t.value] else []
  }

  predicate NoNull(items: seq<Item>) {
    forall k :: 0 <= k < |items| ==> items[k].Entity?
  }

  /** The names pushed by `data['@graph'].forEach(...)`: each item's truthy `@type`
      in order, up to the first `null` item, whose TypeError ends the block. */
  function ItemTypes(items: seq<Item>): seq<string> {
    if items == [] || items[0].NullItem? then []
    else TypeName(items[0].typ) + ItemTypes(items[1..])
  }

  /** The names one block pushes. */
  function BlockTypes(b: Block): seq<string> {
    match b
    case Unparsable => []
    case JsonNull => []
    case JsonValue(NoGraph, typ) => TypeName(typ)
    case JsonValue(GraphArray(items), _) => ItemTypes(items)
    case JsonValue(GraphOther, _) => []
  }

  /** The `schemaTypes` array after `$('script[type="application/ld+json"]').each(...)`. */
  function SchemaTypeList(blocks: seq<Block>): seq<string> {
    if blocks == [] then []
    else SchemaTypeList(blocks[..|blocks| - 1]) + BlockTypes(blocks[|blocks| - 1])
  }

  /** `xs.join(sep)`. */
  function Join(xs: seq<string>, sep: string): string {
    if xs == [] then ""
    else if |xs| == 1 then xs[0]
    else xs[0] + sep + Join(xs[1..], sep)
  }

  /** The `schema` field of a record. */
  function SchemaTypes(blocks: seq<Block>): string {
    Join(SchemaTypeList(blocks), ", ")
  }

  /** Items before the first `null` contribute in order; the `null` cuts off the rest. */
  lemma {:induction false} ItemTypesConcat(a: seq<Item>, b: seq<Item>)
    requires NoNull(a)
    ensures ItemTypes(a + b) == ItemTypes(a) + ItemTypes(b)
  {
    if a == [] {
      assert a + b == b;
    } else {
      assert (a + b)[0] == a[0] && a[0].Entity?;
      assert (a + b)[1..] == a[1..] + b;
      assert NoNull(a[1..]) by {
        forall k | 0 <= k < |a| - 1 ensures a[1..][k].Entity? {
          assert a[1..][k] == a[k + 1];
        }
      }
      ItemTypesConcat(a[1..], b);
      AppendAssoc(TypeName(a[0].typ), ItemTypes(a[1..]), ItemTypes(b));
    }
  }

  /** A `null` item at position `j` loses the names of every later item. */
  lemma ItemTypesCutAtNull(items: seq<Item>, j: nat)
    requires j < |items| && NoNull(items[..j]) && items[j].NullItem?
    ensures ItemTypes(items) == ItemTypes(items[..j])
  {
    assert items == items[..j] + items[j..];
    ItemTypesConcat(items[..j], items[j..]);
  }

  /** Blocks are processed in document order: the names of `a + b` are those of `a`
      followed by those of `b`. */
  lemma {:induction false} SchemaTypeListConcat(a: seq<Block>, b: seq<Block>)
    ensures SchemaTypeList(a + b) == SchemaTypeList(a) + SchemaTypeList(b)
  {
    if b != [] {
      var b' := b[..|b| - 1];
      assert (a + b)[..|a + b| - 1] == a + b';
      SchemaTypeListConcat(a, b');
    } else {
      assert a + b == a;
    }
  }

  /** A block that does not parse, or whose processing throws, contributes nothing
      and the blocks after it are still processed. */
  lemma FailedBlockContributesNothing(a: seq<Block>, b: Block, c: seq<Block>)
    requires b.Unparsable? || b.JsonNull? || (b.JsonValue? && b.graph.GraphOther?)
    ensures SchemaTypeList(a + [b] + c) == SchemaTypeList(a) + SchemaTypeList(c)
  {
    SchemaTypeListConcat(a + [b], c);
    SchemaTypeListConcat(a, [b]);
    assert [b][..0] == [];
    assert SchemaTypeList([b]) == BlockTypes(b) == [];
    assert SchemaTypeList(a + [b]) == SchemaTypeList(a);
  }

  /** A truthy `@graph` takes precedence: the block's own `@type` is then ignored,
      even when the array is empty. */
  lemma GraphHidesOwnType(items: seq<Item>, t: Option<string>)
    ensures BlockTypes(JsonValue(GraphArray(items), t)) == ItemTypes(items)
    ensures BlockTypes(JsonValue(GraphArray([]), t)) == []
  {
  }

  /** Only truthy type names are ever collected. */
  lemma {:induction false} SchemaNamesNonEmpty(blocks: seq<Block>)
    ensures forall k :: 0 <= k < |SchemaTypeList(blocks)| ==> SchemaTypeList(blocks)[k] != ""
  {
    if blocks != [] {
      SchemaNamesNonEmpty(blocks[..|blocks| - 1]);
      var b := blocks[|blocks| - 1];
      if b.JsonValue? && b.graph.GraphArray? {
        ItemNamesNonEmpty(b.graph.items);
      }
    }
  }

  lemma {:induction false} ItemNamesNonEmpty(items: seq<Item>)
    ensures forall k :: 0 <= k < |ItemTypes(items)| ==> ItemTypes(items)[k] != ""
  {
    if items != [] && items[0].Entity? {
      ItemNamesNonEmpty(items[1..]);
    }
  }

  /** Joining two non-empty lists puts one separator between them. */
  lemma {:induction false} JoinConcat(a: seq<string>, b: seq<string>, sep: string)
    requires a != [] && b != []
    ensures Join(a + b, sep) == Join(a, sep) + sep + Join(b, sep)
  {
    if |a| > 1 {
      assert (a + b)[1..] == a[1..] + b;
      JoinConcat(a[1..], b, sep);
    } else {
      assert (a + b)[1..] == b;
    }
  }

  /** A list of non-empty names joins to the empty string only when it is empty. */
  lemma {:induction false} JoinEmpty(xs: seq<string>, sep: string)
    requires forall k :: 0 <= k < |xs| ==> xs[k] != ""
    ensures Join(xs, sep) == "" <==> xs == []
  {
    if |xs| > 1 {
      assert |Join(xs, sep)| >= |xs[0]|;
    }
  }

  /** The `schema` field is empty exactly when no block yields a type name, and the
      field of `a + b` is that of `a`, ", ", that of `b` when both yield names. */
  lemma SchemaTypesShape(a: seq<Block>, b: seq<Block>)
    ensures SchemaTypes(a) == "" <==> SchemaTypeList(a) == []
    ensures SchemaTypeList(a) != [] && SchemaTypeList(b) != [] ==>
              SchemaTypes(a + b) == SchemaTypes(a) + ", " + SchemaTypes(b)
  {
    SchemaNamesNonEmpty(a);
    JoinEmpty(SchemaTypeList(a), ", ");
    SchemaTypeListConcat(a, b);
    if SchemaTypeList(a) != [] && SchemaTypeList(b) != [] {
      JoinConcat(SchemaTypeList(a), SchemaTypeList(b), ", ");
    }
  }

  /** The `forEach` over a truthy `@graph` array: each item's truthy `@type` is pushed;
      reading `@type` of a `null` item throws, which ends the walk. */
  method CollectGraph(items: seq<Item>, acc: seq<string>) returns (next: seq<string>)
    ensures next == acc + ItemTypes(items)
  {
    next := acc;
    var j := 0;
    var threw := false;
    while j < |items| && !threw
      invariant 0 <= j <= |items|
      invariant threw ==> next == acc + ItemTypes(items)
      invariant !threw ==> NoNull(items[..j]) && next == acc + ItemTypes(items[..j])
      decreases |items| - j, !threw
    {
      match items[j] {
        case NullItem =>
          ItemTypesCutAtNull(items, j);
          threw := true;
        case Entity(t) =>
          ItemTypesConcat(items[..j], [items[j]]);
          assert items[..j + 1] == items[..j] + [items[j]];
          assert ItemTypes([items[j]]) == TypeName(t);
          AppendAssoc(acc, ItemTypes(items[..j]), TypeName(t));
          if t.Some? && t.value != "" {
            next := next + [t.value];
          }
          j := j + 1;
      }
    }
    if !threw {
      assert items[..j] == items;
    }
  }

  /** The callback `getSchemaTypes` runs on one script block: its names are pushed;
      a block that does not parse, or whose processing throws, is skipped by the
      `catch`, which keeps the names pushed before the throw. */
  method CollectBlock(block: Block, acc: seq<string>) returns (next: seq<string>)
    ensures next == acc + BlockTypes(block)
  {
    next := acc;
    match block {
      case Unparsable =>
      case JsonNull =>
      case JsonValue(graph, typ) =>
        match graph {
          case NoGraph =>
            if typ.Some? && typ.value != "" {
              next := next + [typ.value];
            }
          case GraphOther =>
          case GraphArray(items) =>
            next := CollectGraph(items, next);
        }
    }
  }

  /** `getSchemaTypes($)`: the `.each` over the script blocks pushes names into
      `schemaTypes`, which is then joined. */
  method GetSchemaTypes(blocks: seq<Block>) returns (schema: string)
    ensures schema == SchemaTypes(blocks)
  {
    var schemaTypes: seq<string> := [];
    var i := 0;
    while i < |blocks|
      invariant 0 <= i <= |blocks|
      invariant schemaTypes == SchemaTypeList(blocks[..i])
    {
      assert blocks[..i + 1][..i] == blocks[..i];
      schemaTypes := CollectBlock(blocks[i], schemaTypes);
      i := i + 1;
    }
    assert blocks[..i] == blocks;
    schema := Join(schemaTypes, ", ");
  }

  // ---------------------------------------------------------------- the page record

  /** The parts of a fetched page the extractor reads: `content` of the first
      matching `meta[property=…]` and `meta[name=…]` tag, and the JSON-LD blocks. A tag
      without `content` is not in the map, since `attr` reads it as `undefined`. */
  datatype Page = Page(byProperty: map<string, string>, byName: map<string, string>, blocks: seq<Block>)

  /** `$(selector).attr('content')`. */
  function Attr(m: map<string, string>, name: string): (r: Option<string>)
    ensures r.Some? <==> name in m
    ensures r.Some? ==> r.value == m[name]
  {
    if name in m then Some(m[name]) else None
  }

  function AttrValue(a: Option<string>): (v: Value)
    ensures v == Absent <==> a.None?
    ensures a.Some? ==> v == Str(a.value)
  {
    if a.Some? then Str(a.value) else Absent
  }

  /** The Open Graph fields of the record, in order, with the property each reads. */
  const MetaTags: seq<(string, string)> := [
    ("locale", "og:locale"), ("type", "og:type"), ("title", "og:title"),
    ("description", "og:description"), ("siteName", "og:site_name"),
    ("updatedTime", "og:updated_time"), ("image", "og:image"),
    ("imageWidth", "og:image:width"), ("imageHeight", "og:image:height"),
    ("imageAlt", "og:image:alt"), ("imageType", "og:image:type"),
    ("video", "og:video"), ("videoDuration", "video:duration")]

  const MetaKeys: seq<string> := seq(|MetaTags|, k requires 0 <= k < |MetaTags| => MetaTags[k].0)

  /** The keys of every scraped record, in the order the object literal lists them. */
  const PageKeys: seq<string> := ["url"] + MetaKeys + ["schema", "robots", "isIndexable"]

  predicate Disjoint(a: seq<string>, b: seq<string>) {
    forall i, j :: 0 <= i < |a| && 0 <= j < |b| ==> a[i] != b[j]
  }

  lemma DistinctAppend(a: seq<string>, b: seq<string>)
    requires DistinctKeys(a) && DistinctKeys(b) && Disjoint(a, b)
    ensures DistinctKeys(a + b)
  {
    forall i, j | 0 <= i < j < |a + b| ensures (a + b)[i] != (a + b)[j] {
      if j < |a| {
        assert (a + b)[i] == a[i] && (a + b)[j] == a[j];
      } else if i < |a| {
        assert (a + b)[i] == a[i] && (a + b)[j] == b[j - |a|];
      } else {
        assert (a + b)[i] == b[i - |a|] && (a + b)[j] == b[j - |a|];
      }
    }
  }

  lemma DisjointAppend(a: seq<string>, b: seq<string>, c: seq<string>, d: seq<string>)
    requires Disjoint(a, c) && Disjoint(a, d) && Disjoint(b, c) && Disjoint(b, d)
    ensures Disjoint(a + b, c + d)
  {
    forall i, j | 0 <= i < |a + b| && 0 <= j < |c + d| ensures (a + b)[i] != (c + d)[j] {
      var x := if i < |a| then a[i] else b[i - |a|];
      var y := if j < |c| then c[j] else d[j - |c|];
      assert (a + b)[i] == x && (c + d)[j] == y;
    }
  }

  const Keys1: seq<string> := ["url", "locale", "type", "title"]
  const Keys2: seq<string> := ["description", "siteName", "updatedTime", "image"]
  const Keys3: seq<string> := ["imageWidth", "imageHeight", "imageAlt", "imageType"]
  const Keys4: seq<string> := ["video", "videoDuration", "schema", "robots", "isIndexable"]

  lemma KeyChunksDistinct()
    ensures DistinctKeys(Keys1) && DistinctKeys(Keys2) && DistinctKeys(Keys3) && DistinctKeys(Keys4)
  {
  }

  lemma KeyChunksDisjoint12() ensures Disjoint(Keys1, Keys2) {}
  lemma KeyChunksDisjoint13() ensures Disjoint(Keys1, Keys3) {}
  lemma KeyChunksDisjoint14() ensures Disjoint(Keys1, Keys4) {}
  lemma KeyChunksDisjoint23() ensures Disjoint(Keys2, Keys3) {}
  lemma KeyChunksDisjoint24() ensures Disjoint(Keys2, Keys4) {}
  lemma KeyChunksDisjoint34() ensures Disjoint(Keys3, Keys4) {}

  lemma PageKeysDistinct()
    ensures DistinctKeys(PageKeys)
  {
    PageKeysLiteral();
    assert PageKeys == (Keys1 + Keys2) + (Keys3 + Keys4);
    KeyChunksDistinct();
    KeyChunksDisjoint12();
    KeyChunksDisjoint13();
    KeyChunksDisjoint14();
    KeyChunksDisjoint23();
    KeyChunksDisjoint24();
    KeyChunksDisjoint34();
    DistinctAppend(Keys1, Keys2);
    DistinctAppend(Keys3, Keys4);
    DisjointAppend(Keys1, Keys2, Keys3, Keys4);
    DistinctAppend(Keys1 + Keys2, Keys3 + Keys4);
  }

  /** The keys in full. */
  lemma PageKeysLiteral()
    ensures PageKeys == ["url", "locale", "type", "title", "description",
      "siteName", "updatedTime", "image", "imageWidth", "imageHeight", "imageAlt",
      "imageType", "video", "videoDuration", "schema", "robots", "isIndexable"]
  {
  }

  function MetaFields(byProperty: map<string, string>): (fs: seq<Field>)
    ensures |fs| == |MetaTags|
    ensures forall k :: 0 <= k < |fs| ==>
              fs[k] == Field(MetaTags[k].0, AttrValue(Attr(byProperty, MetaTags[k].1)))
  {
    seq(|MetaTags|, k requires 0 <= k < |MetaTags| =>
      Field(MetaTags[k].0, AttrValue(Attr(byProperty, MetaTags[k].1))))
  }

  /** The record `scrapePage` returns for a page it fetched. */
  function PageRecord(url: string, page: Page, schema: string): Record {
    [Field("url", Str(url))] + MetaFields(page.byProperty)
    + [Field("schema", Str(schema)),
       Field("robots", AttrValue(Attr(page.byName, "robots"))),
       Field("isIndexable", Bool(IsIndexable(Attr(page.byName, "robots"))))]
  }

  /** The metadata object `scrapePage(url)` builds once the page is fetched. */
  method ScrapePage(url: string, page: Page) returns (r: Record)
    ensures r == PageRecord(url, page, SchemaTypes(page.blocks))
  {
    var schema := GetSchemaTypes(page.blocks);
    r := PageRecord(url, page, schema);
  }

  /** Every scraped record has the same seventeen distinct keys. */
  lemma PageRecordKeys(url: string, page: Page, schema: string)
    ensures Keys(PageRecord(url, page, schema)) == PageKeys
  {
    var m := MetaFields(page.byProperty);
    var tail := [Field("schema", Str(schema)),
       Field("robots", AttrValue(Attr(page.byName, "robots"))),
       Field("isIndexable", Bool(IsIndexable(Attr(page.byName, "robots"))))];
    assert Keys(m) == MetaKeys;
    KeysConcat([Field("url", Str(url))], m);
    KeysConcat([Field("url", Str(url))] + m, tail);
  }

  /** A scraped record's `url` is the page URL, its `schema` the collected types, and
      its `isIndexable` agrees with its `robots` field. */
  lemma PageRecordFields(url: string, page: Page, schema: string)
    ensures Get(PageRecord(url, page, schema), "url") == Str(url)
    ensures Get(PageRecord(url, page, schema), "schema") == Str(schema)
    ensures var robots := Get(PageRecord(url, page, schema), "robots");
            Get(PageRecord(url, page, schema), "isIndexable")
              == Bool(!(robots.Str? && ContainsNoindex(robots.s)))
  {
    var r := PageRecord(url, page, schema);
    PageRecordKeys(url, page, schema);
    PageKeysDistinct();
    assert r[14].key == "schema" && r[15].key == "robots" && r[16].key == "isIndexable";
    GetField(r, 14);
    GetField(r, 15);
    GetField(r, 16);
  }

  /** Each Open Graph field holds the `content` of its tag, or `undefined`. */
  lemma PageRecordMeta(url: string, page: Page, schema: string, k: nat)
    requires k < |MetaTags|
    ensures Get(PageRecord(url, page, schema), MetaTags[k].0)
              == AttrValue(Attr(page.byProperty, MetaTags[k].1))
  {
    var r := PageRecord(url, page, schema);
    PageRecordKeys(url, page, schema);
    PageKeysDistinct();
    assert r[k + 1] == MetaFields(page.byProperty)[k];
    GetField(r, k + 1);
  }
}
