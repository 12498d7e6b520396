/** The diff engine of `createAndCompareExcelFile`: one worksheet row per new record,
    with the cells whose normalised value differs from the matching old record filled
    yellow. */
module Diff {
  import opened Js
  import opened Records
  import opened Worksheet

  /** `oldData.find(old => old.url === url)`, as the position of the record found. */
  function FindByUrl(oldData: seq<Record>, url: Value): (r: Option<nat>)
    ensures r.Some? ==> r.value < |oldData| && Get(oldData[r.value], "url") == url
    ensures r.Some? ==> forall k :: 0 <= k < r.value ==> Get(oldData[k], "url") != url
    ensures r.None? <==> forall k :: 0 <= k < |oldData| ==> Get(oldData[k], "url") != url
  {
    if oldData == [] then None
    else if Get(oldData[0], "url") == url then Some(0)
    else
      match FindByUrl(oldData[1..], url)
      case None => None
      case Some(i) => Some(i + 1)
  }

  /** `i` is the first old record whose `url` is `url`. */
  predicate FirstMatch(oldData: seq<Record>, url: Value, i: int) {
    0 <= i < |oldData| && Get(oldData[i], "url") == url
    && forall k :: 0 <= k < i ==> Get(oldData[k], "url") != url
  }

  /** The columns set up from the first record: one per key, in key order, labelled
      with the key's first character upper-cased, 20 wide. */
  function Columns(first: Record): (cols: seq<Column>)
    ensures |cols| == |first|
    ensures forall j :: 0 <= j < |cols| ==>
              cols[j].key == Keys(first)[j] && cols[j].header == Capitalize(cols[j].key) && cols[j].width == 20
  {
    seq(|first|, j requires 0 <= j < |first| => Column(Capitalize(first[j].key), first[j].key, 20))
  }

  function ColumnKeys(cols: seq<Column>): (ks: seq<string>)
    ensures |ks| == |cols| && forall j :: 0 <= j < |cols| ==> ks[j] == cols[j].key
  {
    seq(|cols|, j requires 0 <= j < |cols| => cols[j].key)
  }

  /** `row.getCell(key)`: the position of the column with that key. */
  function ColumnIndex(cols: seq<Column>, key: string): (j: nat)
    requires key in ColumnKeys(cols)
    ensures j < |cols| && cols[j].key == key
  {
    if cols[0].key == key then 0 else 1 + ColumnIndex(cols[1..], key)
  }

  /** The comparison of one key: `newVal !== oldVal` after normalising both. */
  predicate Changed(newItem: Record, oldItem: Record, key: string) {
    Normalized(Get(newItem, key)) != Normalized(Get(oldItem, key))
  }

  /** The row `worksheet.addRow(newItem)` adds: the raw value under each column's key. */
  function AddedRow(cols: seq<Column>, newItem: Record): (row: seq<Cell>)
    ensures |row| == |cols|
    ensures forall j :: 0 <= j < |cols| ==> row[j] == Cell(Get(newItem, cols[j].key), NoFill)
  {
    seq(|cols|, j requires 0 <= j < |cols| => Cell(Get(newItem, cols[j].key), NoFill))
  }

  /** Whether the cell of column `key` in the row for `newItem` ends up highlighted. */
  predicate Marked(newItem: Record, oldData: seq<Record>, key: string) {
    match FindByUrl(oldData, Get(newItem, "url"))
    case None => false
    case Some(i) => key in Keys(newItem) && Changed(newItem, oldData[i], key)
  }

  /** The finished row for `newItem`. */
  function DiffRow(cols: seq<Column>, newItem: Record, oldData: seq<Record>): (row: seq<Cell>)
    ensures |row| == |cols|
  {
    seq(|cols|, j requires 0 <= j < |cols| =>
      Cell(Get(newItem, cols[j].key), if Marked(newItem, oldData, cols[j].key) then Highlight else NoFill))
  }

  /** The worksheet for a batch, or `None` for an empty batch, where `Object.keys(newData[0])`
      throws a TypeError. */
  function DiffSheet(newData: seq<Record>, oldData: seq<Record>): Option<Sheet> {
    if newData == [] then None
    else Some(Sheet(Columns(newData[0]), DiffRows(Columns(newData[0]), newData, oldData)))
  }

  /** The rows of a batch, one per new record, in order. */
  function DiffRows(cols: seq<Column>, items: seq<Record>, oldData: seq<Record>): (rows: seq<seq<Cell>>)
    ensures |rows| == |items|
    ensures forall i :: 0 <= i < |items| ==> rows[i] == DiffRow(cols, items[i], oldData)
  {
    if items == [] then []
    else DiffRows(cols, items[..|items| - 1], oldData) + [DiffRow(cols, items[|items| - 1], oldData)]
  }

  /** Every record of the batch uses only keys of the first record, whose keys are
      distinct, so that every `row.getCell(key)` finds its column. The scraper's
      records all have the same keys. */
  predicate UniformKeys(newData: seq<Record>) {
    newData != [] ==>
      DistinctKeys(Keys(newData[0]))
      && forall i, k :: 0 <= i < |newData| && k in Keys(newData[i]) ==> k in Keys(newData[0])
  }

  lemma ColumnKeysOfFirst(first: Record)
    ensures ColumnKeys(Columns(first)) == Keys(first)
  {
  }

  /** The row after `Object.keys(newItem).forEach(...)` has filled the cells of the
      keys in `keys` whose values differ from the old record's. */
  function MarkedRow(cols: seq<Column>, newItem: Record, oldItem: Record, keys: seq<string>): (row: seq<Cell>)
    ensures |row| == |cols|
  {
    seq(|cols|, j requires 0 <= j < |cols| =>
      Cell(Get(newItem, cols[j].key),
           if cols[j].key in keys && Changed(newItem, oldItem, cols[j].key) then Highlight else NoFill))
  }

  /** Comparing one more key fills at most the one cell of that key's column. */
  lemma MarkStep(cols: seq<Column>, newItem: Record, oldItem: Record, keys: seq<string>, key: string)
    requires DistinctKeys(ColumnKeys(cols)) && key in ColumnKeys(cols)
    ensures var before := MarkedRow(cols, newItem, oldItem, keys);
            var idx := ColumnIndex(cols, key);
            MarkedRow(cols, newItem, oldItem, keys + [key])
              == if Changed(newItem, oldItem, key) then before[idx := before[idx].(fill := Highlight)] else before
  {
    var before := MarkedRow(cols, newItem, oldItem, keys);
    var after := MarkedRow(cols, newItem, oldItem, keys + [key]);
    var idx := ColumnIndex(cols, key);
    var expected := if Changed(newItem, oldItem, key) then before[idx := before[idx].(fill := Highlight)] else before;
    forall j | 0 <= j < |cols| ensures after[j] == expected[j] {
      assert (cols[j].key in keys + [key]) <==> (cols[j].key in keys || cols[j].key == key);
      if cols[j].key == key {
        assert ColumnKeys(cols)[j] == ColumnKeys(cols)[idx];
        assert j == idx;
      }
    }
  }

  /** One turn of the comparison loop: the row before comparing `keys[t]` and the row
      after. */
  lemma CompareStep(cols: seq<Column>, newItem: Record, oldItem: Record, keys: seq<string>, t: nat,
                    before: seq<Cell>, after: seq<Cell>)
    requires DistinctKeys(ColumnKeys(cols)) && t < |keys| && keys[t] in ColumnKeys(cols)
    requires before == MarkedRow(cols, newItem, oldItem, keys[..t])
    requires var idx := ColumnIndex(cols, keys[t]);
             after == if Changed(newItem, oldItem, keys[t]) then before[idx := before[idx].(fill := Highlight)] else before
    ensures after == MarkedRow(cols, newItem, oldItem, keys[..t + 1])
  {
    MarkStep(cols, newItem, oldItem, keys[..t], keys[t]);
    assert keys[..t + 1] == keys[..t] + [keys[t]];
  }

  /** The comparison loop over the new record's keys, filling changed cells in place. */
  method CompareRow(columns: seq<Column>, newItem: Record, oldItem: Record) returns (row: seq<Cell>)
    requires DistinctKeys(ColumnKeys(columns))
    requires forall k :: k in Keys(newItem) ==> k in ColumnKeys(columns)
    ensures row == MarkedRow(columns, newItem, oldItem, Keys(newItem))
  {
    row := AddedRow(columns, newItem);
    var keys := Keys(newItem);
    var t := 0;
    while t < |keys|
      invariant 0 <= t <= |keys|
      invariant row == MarkedRow(columns, newItem, oldItem, keys[..t])
    {
      var key := keys[t];
      assert key in Keys(newItem);
      var idx := ColumnIndex(columns, key);
      ghost var before := row;
      if Normalized(Get(newItem, key)) != Normalized(Get(oldItem, key)) {
        row := row[idx := row[idx].(fill := Highlight)];
      }
      CompareStep(columns, newItem, oldItem, keys, t, before, row);
      t := t + 1;
    }
    assert keys[..t] == keys;
  }

  lemma DiffRowsSnoc(cols: seq<Column>, items: seq<Record>, i: nat, oldData: seq<Record>)
    requires i < |items|
    ensures DiffRows(cols, items[..i + 1], oldData) == DiffRows(cols, items[..i], oldData) + [DiffRow(cols, items[i], oldData)]
  {
    assert items[..i + 1][..i] == items[..i];
  }

  /** The finished row is the added row, compared against the matching old record when
      there is one. */
  lemma DiffRowCases(cols: seq<Column>, newItem: Record, oldData: seq<Record>)
    ensures match FindByUrl(oldData, Get(newItem, "url"))
            case None => DiffRow(cols, newItem, oldData) == AddedRow(cols, newItem)
            case Some(i) => DiffRow(cols, newItem, oldData) == MarkedRow(cols, newItem, oldData[i], Keys(newItem))
  {
  }

  /** `createAndCompareExcelFile(newData, fileName)` up to writing the file: the header
      from the first record, then for each new record its row, and when an old record
      with the same `url` exists, each of the new record's keys compared and its cell
      filled when the values differ. */
  method CreateAndCompare(newData: seq<Record>, oldData: seq<Record>) returns (sheet: Option<Sheet>)
    requires UniformKeys(newData)
    ensures sheet == DiffSheet(newData, oldData)
  {
    if |newData| == 0 {
      return None;
    }
    var columns := Columns(newData[0]);
    ColumnKeysOfFirst(newData[0]);
    var rows: seq<seq<Cell>> := [];
    var i := 0;
    while i < |newData|
      invariant 0 <= i <= |newData|
      invariant rows == DiffRows(columns, newData[..i], oldData)
    {
      var newItem := newData[i];
      var row;
      var found := FindByUrl(oldData, Get(newItem, "url"));
      if found.Some? {
        var oldItem := oldData[found.value];
        assert forall k :: k in Keys(newItem) ==> k in ColumnKeys(columns) by {
          assert forall k :: k in Keys(newItem) ==> k in Keys(newData[0]);
        }
        row := CompareRow(columns, newItem, oldItem);
      } else {
        row := AddedRow(columns, newItem);
      }
      DiffRowCases(columns, newItem, oldData);
      DiffRowsSnoc(columns, newData, i, oldData);
      rows := rows + [row];
      i := i + 1;
    }
    assert newData[..i] == newData;
    sheet := Some(Sheet(columns, rows));
  }

  // ---------------------------------------------------------------- properties

  /** A cell is highlighted exactly when an old record with the same `url` exists, the
      column's key is one of the new record's keys, and the normalised values of the
      new record and the FIRST such old record differ; its value is the raw new value. */
  lemma MarkedIff(cols: seq<Column>, newItem: Record, oldData: seq<Record>, j: nat)
    requires j < |cols|
    ensures var row := DiffRow(cols, newItem, oldData);
            var key := cols[j].key;
            row[j].value == Get(newItem, key)
            && (row[j].fill == Highlight || row[j].fill == NoFill)
            && (IsHighlighted(row[j].fill) <==>
                  exists i :: FirstMatch(oldData, Get(newItem, "url"), i)
                              && key in Keys(newItem) && Changed(newItem, oldData[i], key))
  {
    var url := Get(newItem, "url");
    var key := cols[j].key;
    match FindByUrl(oldData, url)
    case None =>
    case Some(i) =>
      forall i' | FirstMatch(oldData, url, i') ensures i' == i {
        FirstMatchUnique(oldData, url, i, i');
      }
      if key in Keys(newItem) && Changed(newItem, oldData[i], key) {
        assert FirstMatch(oldData, url, i);
      }
  }

  /** There is only one first match. */
  lemma FirstMatchUnique(oldData: seq<Record>, url: Value, i: int, i': int)
    requires FirstMatch(oldData, url, i) && FirstMatch(oldData, url, i')
    ensures i == i'
  {
  }

  /** A new record whose `url` matches no old record gets no highlighted cell. */
  lemma NoMatchNoMarks(cols: seq<Column>, newItem: Record, oldData: seq<Record>)
    requires forall k :: 0 <= k < |oldData| ==> Get(oldData[k], "url") != Get(newItem, "url")
    ensures forall j :: 0 <= j < |cols| ==> DiffRow(cols, newItem, oldData)[j].fill == NoFill
  {
  }

  /** When the first old record with the same `url` normalises like the new record on
      every key of the new record, nothing is highlighted: differences in type
      (`false` against `undefined`) or surrounding white space do not count. */
  lemma UnchangedNoMarks(cols: seq<Column>, newItem: Record, oldData: seq<Record>, i: nat)
    requires FirstMatch(oldData, Get(newItem, "url"), i)
    requires forall k :: k in Keys(newItem) ==> !Changed(newItem, oldData[i], k)
    ensures forall j :: 0 <= j < |cols| ==> DiffRow(cols, newItem, oldData)[j].fill == NoFill
  {
    forall j | 0 <= j < |cols| ensures DiffRow(cols, newItem, oldData)[j].fill == NoFill {
      MarkedIff(cols, newItem, oldData, j);
    }
  }

  /** Diffing a batch against itself highlights nothing, provided records with the same
      `url` are the same record (the diff looks only at the first one). */
  lemma SelfDiffNoMarks(newData: seq<Record>)
    requires forall i, k :: (0 <= i < |newData| && 0 <= k < |newData|
               && Get(newData[i], "url") == Get(newData[k], "url")) ==> newData[i] == newData[k]
    ensures DiffSheet(newData, newData).Some? <==> newData != []
    ensures DiffSheet(newData, newData).Some? ==>
              var s := DiffSheet(newData, newData).value;
              forall i, j :: 0 <= i < |s.rows| && 0 <= j < |s.rows[i]| ==> s.rows[i][j].fill == NoFill
  {
    if newData != [] {
      var s := DiffSheet(newData, newData).value;
      forall i, j | 0 <= i < |s.rows| && 0 <= j < |s.rows[i]| ensures s.rows[i][j].fill == NoFill {
        var newItem := newData[i];
        var found := FindByUrl(newData, Get(newItem, "url"));
        assert found.Some? by {
          assert Get(newData[i], "url") == Get(newItem, "url");
        }
        assert newData[found.value] == newItem;
        UnchangedNoMarks(s.columns, newItem, newData, found.value);
      }
    }
  }

  /** The scraper lists one sitemap twice, so one page can appear twice in a batch; if
      the two copies differ, diffing the batch against itself does highlight a cell,
      because every copy is compared with the first. */
  lemma SelfDiffWithDuplicateUrl()
    ensures var a := [Field("url", Str("u")), Field("title", Str("A"))];
            var b := [Field("url", Str("u")), Field("title", Str("B"))];
            var s := DiffSheet([a, b], [a, b]);
            s.Some? && s.value.rows[1][1].fill == Highlight
  {
    var a := [Field("url", Str("u")), Field("title", Str("A"))];
    var b := [Field("url", Str("u")), Field("title", Str("B"))];
    assert Keys(a) == ["url", "title"] && Keys(b) == ["url", "title"];
    assert Get(b, "url") == Str("u") && Get(a, "url") == Str("u");
    assert FindByUrl([a, b], Str("u")) == Some(0);
    assert Get(b, "title") == Str("B") && Get(a, "title") == Str("A");
    NormalizedCases(Str("A"));
    NormalizedCases(Str("B"));
    assert Trim("A") == "A" by { assert TrimStart("A") == "A"; assert TrimEnd("A") == "A"; }
    assert Trim("B") == "B" by { assert TrimStart("B") == "B"; assert TrimEnd("B") == "B"; }
    assert Changed(b, a, "title");
    assert Columns(a)[1].key == "title";
  }

  /** Reading the baseline from the JSON file instead of using the records themselves
      changes no row: `undefined` fields dropped by JSON read back as `undefined`. */
  lemma PersistedBaselineSameDiff(newData: seq<Record>, oldData: seq<Record>)
    requires forall k :: 0 <= k < |oldData| ==> DistinctKeys(Keys(oldData[k]))
    ensures DiffSheet(newData, Persisted(oldData)) == DiffSheet(newData, oldData)
  {
    if newData != [] {
      var cols := Columns(newData[0]);
      var p := DiffRows(cols, newData, Persisted(oldData));
      var q := DiffRows(cols, newData, oldData);
      RowsAgree(cols, newData, oldData);
      assert DiffSheet(newData, Persisted(oldData)) == Some(Sheet(cols, p));
    }
  }

  lemma RowsAgree(cols: seq<Column>, newData: seq<Record>, oldData: seq<Record>)
    requires forall k :: 0 <= k < |oldData| ==> DistinctKeys(Keys(oldData[k]))
    ensures DiffRows(cols, newData, Persisted(oldData)) == DiffRows(cols, newData, oldData)
  {
    var p := DiffRows(cols, newData, Persisted(oldData));
    var q := DiffRows(cols, newData, oldData);
    forall i | 0 <= i < |newData| ensures p[i] == q[i] {
      PersistedBaselineSameRow(cols, newData[i], oldData);
    }
  }

  lemma PersistedBaselineSameRow(cols: seq<Column>, newItem: Record, oldData: seq<Record>)
    requires forall k :: 0 <= k < |oldData| ==> DistinctKeys(Keys(oldData[k]))
    ensures DiffRow(cols, newItem, Persisted(oldData)) == DiffRow(cols, newItem, oldData)
  {
    var p := Persisted(oldData);
    forall k | 0 <= k < |oldData| ensures Get(p[k], "url") == Get(oldData[k], "url") {
      JsonRoundTripGet(oldData[k], "url");
    }
    FindByUrlSameUrls(p, oldData, Get(newItem, "url"));
    DiffRowCases(cols, newItem, oldData);
    DiffRowCases(cols, newItem, p);
    var found := FindByUrl(oldData, Get(newItem, "url"));
    if found.Some? {
      var i := found.value;
      forall key ensures Get(p[i], key) == Get(oldData[i], key) {
        JsonRoundTripGet(oldData[i], key);
      }
      MarkedRowSameValues(cols, newItem, p[i], oldData[i], Keys(newItem));
    }
  }

  /** Rows compared against old records that read the same under every key are equal. */
  lemma MarkedRowSameValues(cols: seq<Column>, newItem: Record, a: Record, b: Record, keys: seq<string>)
    requires forall key :: Get(a, key) == Get(b, key)
    ensures MarkedRow(cols, newItem, a, keys) == MarkedRow(cols, newItem, b, keys)
  {
    forall j | 0 <= j < |cols|
      ensures MarkedRow(cols, newItem, a, keys)[j] == MarkedRow(cols, newItem, b, keys)[j]
    {
      assert Get(a, cols[j].key) == Get(b, cols[j].key);
    }
  }

  /** The search depends only on the records' `url` values. */
  lemma FindByUrlSameUrls(a: seq<Record>, b: seq<Record>, url: Value)
    requires |a| == |b| && forall k :: 0 <= k < |a| ==> Get(a[k], "url") == Get(b[k], "url")
    ensures FindByUrl(a, url) == FindByUrl(b, url)
  {
    var fa := FindByUrl(a, url);
    var fb := FindByUrl(b, url);
    if fa.Some? && fb.Some? {
      assert FirstMatch(b, url, fa.value);
      FirstMatchUnique(b, url, fa.value, fb.value);
    }
  }
}
