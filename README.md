# Sitemap scraper: a verified model of its core

The scraper reads a list of sitemap URLs and groups them by hostname. For each group it does the following:

- scrapes every page the sitemaps list: Open Graph meta tags, the robots tag, and the JSON-LD `@type` names;
- writes the records to an Excel worksheet;
- highlights in yellow every cell whose value differs from the first record with the same `url` in the saved baseline. For the first group with records that baseline is the previous run's file; for every later group it is the group reported just before it;
- saves the records as the new baseline;
- mails the worksheet as an HTML table.

This project models that core in Dafny and proves what it does. The network, the spreadsheet library, the file system and the mailer are replaced by plain inputs.

The modules follow the program's structure:

- `Js` (js.dfy) covers the JavaScript value semantics the code relies on:
  - truthiness and `String(v)`;
  - `trim` with ECMAScript white space;
  - `v ? v.toString().trim() : ''`;
  - the first character upper-cased;
  - `\w`.
- `Records` (records.dfy) covers:
  - records as objects with their keys in insertion order;
  - `r[key]`, with `undefined` for a missing key;
  - the JSON baseline file `oldScrapedData.json`. `JSON.stringify` drops `undefined` fields.
- `Extract` (extract.dfy) covers:
  - the `isIndexable` rule;
  - `getSchemaTypes`, as a loop with the `try`/`catch` of each script block;
  - the seventeen-field record `scrapePage` builds.
- `Worksheet` (worksheet.dfy) covers the in-memory worksheet: columns, cells with a value and a fill, and the header row.
- `Diff` (diff.dfy) covers `createAndCompareExcelFile`:
  - the column set-up;
  - the first old record with the same `url`;
  - the key-by-key comparison loop that fills changed cells.
- `Html` (html.dfy) covers `convertExcelToHTML`, as a loop that grows the HTML string. It also has a reader of that HTML and a proof that the page reads back as the table it shows.
- `Grouping` (grouping.dfy) covers:
  - the `reduce` that groups sitemap URLs by hostname;
  - `hostname.replace(/\W+/g, '_')`;
  - `slice(0, 10)` of the ISO date;
  - the workbook name.
- `Run` (run.dfy) covers:
  - `Promise.allSettled` and its filter chain;
  - the accumulation of a group's results;
  - `main`'s loop over the groups, proved against a functional description of the whole run.

Three points of the code's behaviour shape the model:

- **The diff baseline.** The diff compares against the records in `oldScrapedData.json` (`readOldData`, index.js:123). It does not use the workbook read per group (index.js:194-200); that value and the one read at index.js:164 are unused. After each group succeeds, `saveNewData` (index.js:216) overwrites the file. So every group after the first is diffed against the group reported just before it (`Run.RunReport`, `Run.SecondGroupAgainstFirst`).
- **The renderer's yellow test.** It checks the fill type `pattern` and the ARGB colour `FFFFFF00` only (index.js:248). It does not check the pattern name `solid`.
- **No per-group error handling.** `main` has no `try`/`catch` around a group, so a failing write, read or send rejects `main` and ends the run (index.js:188-223, 292). The model has no such failures (see "## Left out"). A group with no results is skipped (index.js:214-222).

## Model

| member | source | states |
|---|---|---|
| `Extract.IsIndexable` | index.js:45-48 | `isIndexable` is false exactly when a robots value is present and contains `noindex` in any ASCII letter case; an absent or empty robots value gives true |
| `Extract.TestNoindex` | index.js:47 | the scan of `/noindex/i.test` finds a match at or after `from` exactly when one exists |
| `Extract.ContainsNoindex` | index.js:47 | definition: the string holds `noindex` at some position in any ASCII letter case; `Extract.TestNoindex` and `Extract.IsIndexable` are stated against it |
| `Extract.TypeName` | index.js:65-70 | definition: a `@type` contributes one name exactly when it is present and truthy; `Extract.SchemaNamesNonEmpty` and `Extract.ItemNamesNonEmpty` are stated with it |
| `Extract.ItemTypesConcat` | index.js:64-68 | the names of the items of a `@graph` split over a concatenation, as long as no item before the split is `null` |
| `Extract.ItemTypesCutAtNull` | index.js:60-74 | a `null` item in `@graph` throws inside the `try`: the names of the items before it are kept and nothing after it is read |
| `Extract.SchemaTypeListConcat` | index.js:59-75 | the names of the script blocks are collected in block order: the list over concatenated blocks is the concatenation of the lists |
| `Extract.FailedBlockContributesNothing` | index.js:60-74 | a block that fails to parse, parses to `null`, or has a truthy non-array `@graph` contributes nothing, and the blocks after it are still processed |
| `Extract.GraphHidesOwnType` | index.js:63-71 | a block with a `@graph` array contributes its items' names only, never its own `@type`, even when the array is empty |
| `Extract.SchemaNamesNonEmpty` | index.js:65-70 | no collected name is empty |
| `Extract.ItemNamesNonEmpty` | index.js:64-68 | no name collected from a `@graph` is empty |
| `Extract.ItemTypes` | index.js:64-68 | definition: the names the `forEach` over a `@graph` pushes; its properties are `Extract.ItemTypesConcat`, `Extract.ItemTypesCutAtNull` and `Extract.ItemNamesNonEmpty` |
| `Extract.BlockTypes` | index.js:60-74 | definition: the names one block's `try` body pushes; its properties are `Extract.FailedBlockContributesNothing` and `Extract.GraphHidesOwnType` |
| `Extract.SchemaTypeList` | index.js:59-75 | definition: the names of all blocks, in block order; its properties are `Extract.SchemaTypeListConcat` and `Extract.SchemaNamesNonEmpty` |
| `Extract.Join` | index.js:77 | definition: `join(sep)`; its properties are `Extract.JoinConcat` and `Extract.JoinEmpty` |
| `Extract.SchemaTypes` | index.js:56-78 | definition: the joined names; its properties are `Extract.SchemaTypesShape`, and `Extract.GetSchemaTypes` is proved against it |
| `Extract.JoinConcat` | index.js:77 | `join(', ')` of a concatenation of two non-empty lists is the two joins with the separator between them |
| `Extract.JoinEmpty` | index.js:77 | a join of non-empty names is empty exactly when there are no names |
| `Extract.SchemaTypesShape` | index.js:56-78 | the `schema` string is empty exactly when no block contributes a name, and schemas of two block lists that both contribute join with `", "` |
| `Extract.CollectGraph` | index.js:64-68 | the `forEach` over `@graph` pushes the item names in item order and stops at the first `null` item |
| `Extract.CollectBlock` | index.js:60-74 | one block's `try` body pushes exactly that block's names |
| `Extract.GetSchemaTypes` | index.js:56-78 | the loop over the script blocks returns the joined names of all blocks in block order |
| `Extract.Attr` | index.js:30-44 | definition: `$(...).attr('content')`, present exactly when the page map has the tag's content; `Extract.PageRecordMeta` states what the record holds |
| `Extract.AttrValue` | index.js:30-44 | definition: `undefined` for a missing tag, otherwise the content as a string; `Extract.PageRecordMeta` states what the record holds |
| `Extract.MetaFields` | index.js:30-42 | definition: the meta fields are the thirteen Open Graph properties in the source's order, each read from its tag |
| `Extract.MetaTags` | index.js:30-42 | definition: the thirteen record keys with the `og:` or `video:` property each reads |
| `Extract.PageKeysDistinct` | index.js:28-49 | the seventeen keys of a scraped record are distinct |
| `Extract.PageKeysLiteral` | index.js:28-49 | the record's keys are `url`, the thirteen meta keys, `schema`, `robots` and `isIndexable`, in that order |
| `Extract.ScrapePage` | index.js:24-50 | `scrapePage` builds the record of a page from its URL, tags and script blocks |
| `Extract.PageRecord` | index.js:28-49 | definition: the object literal of `scrapePage`; its properties are `Extract.PageRecordKeys`, `Extract.PageRecordFields` and `Extract.PageRecordMeta` |
| `Extract.PageRecordKeys` | index.js:28-49 | every scraped record has exactly the seventeen keys, in order |
| `Extract.PageRecordFields` | index.js:28-49 | a record's `url` is the page URL, its `schema` is the joined schema types, and its `isIndexable` is true unless its `robots` string contains `noindex` |
| `Extract.PageRecordMeta` | index.js:30-42 | each meta field of a record holds the content of its tag, or `undefined` (the property stated about `Extract.MetaFields`) |
| `Js.TextOrEmpty` | index.js:142-143 | definition: `v || ''` in a template literal: `''` for a falsy value, its non-empty text otherwise; `Html.RenderRoundTrip` and `Run.ShownRows` state what the table shows with it |
| `Js.Truthy` | index.js:142-143 | definition: JavaScript truthiness of a field value: a non-empty string, `true` |
| `Js.ToText` | index.js:142-143 | definition: `toString()` of a field value; `undefined` prints as `undefined` in a template literal |
| `Js.IsSpace` | index.js:142-143 | definition: the ECMAScript WhiteSpace and LineTerminator characters `trim` removes |
| `Js.Trim` | index.js:142-143 | definition: `String.prototype.trim`; its properties are `Js.TrimShape`, `Js.TrimEdges` and `Js.TrimIdempotent` |
| `Js.Normalized` | index.js:142-143 | definition: `v ? v.toString().trim() : ''`; its cases are stated by `Js.NormalizedCases` |
| `Js.TrimStartShape` | index.js:142-143 | removing leading white space removes a run of white space and stops at a non-space |
| `Js.TrimEndShape` | index.js:142-143 | removing trailing white space removes a run of white space and stops at a non-space |
| `Js.TrimShape` | index.js:142-143 | `trim` cuts a string into leading white space, the result and trailing white space |
| `Js.TrailIsSpace` | index.js:142-143 | what `trim` removes behind the result is white space |
| `Js.TrimEdges` | index.js:142-143 | what `trim` returns neither begins nor ends with white space |
| `Js.TrimIdempotent` | index.js:142-143 | trimming twice is trimming once |
| `Js.NormalizedCases` | index.js:142-143 | the compared string is the trimmed string, `''` for `undefined` and `false`, and `"true"` for `true` |
| `Js.UpperAscii` | index.js:129 | definition: ASCII `toUpperCase`, with `a`–`z` mapped to `A`–`Z` and every other character left unchanged (JavaScript also upper-cases letters outside ASCII; see "## Left out"); used by `Extract.TestNoindex` and `Js.CapitalizeIdempotent` |
| `Js.Capitalize` | index.js:129 | definition: the header label, the key with its first character upper-cased; `Js.CapitalizeIdempotent` and `Run.ShownHeaders` state its properties |
| `Js.CapitalizeIdempotent` | index.js:129 | capitalising twice is capitalising once, and a key is its own label exactly when it is empty or does not start with a small letter |
| `Records.Keys` | index.js:140 | `Object.keys` lists the field names in insertion order |
| `Records.KeysConcat` | index.js:140 | the keys of concatenated fields are the concatenated keys |
| `Records.Get` | index.js:142-143 | reading a key the object does not have gives `undefined` |
| `Records.DistinctTail` | index.js:128 | without its first field an object keeps distinct keys, none of them the first field's |
| `Records.GetField` | index.js:142 | in an object with distinct keys, `r[key]` is the value of the field named `key` |
| `Records.JsonRoundTrip` | index.js:79-91 | a record stored as JSON loses only its `undefined` fields |
| `Records.Persisted` | index.js:79-91 | the file read back holds, record by record, the JSON copies of the records saved |
| `Records.JsonRoundTripGet` | index.js:79-91 | storing a record as JSON changes what no key reads as |
| `Records.KeysOfRoundTrip` | index.js:79-91 | the JSON copy of a record has no key the record did not have |
| `Worksheet.HighlightIsHighlighted` | index.js:145-149 | the diff's yellow fill passes the renderer's test, and no fill does not |
| `Worksheet.Highlight` | index.js:145-149 | definition: the fill written to a changed cell: type `pattern`, pattern `solid`, ARGB `FFFFFF00` |
| `Worksheet.IsHighlighted` | index.js:248 | definition: the renderer's test: type `pattern` and ARGB `FFFFFF00`, whatever the pattern name |
| `Worksheet.HasValue` | index.js:242 | definition: ExcelJS `row.hasValues`: some cell holds a value other than `undefined`; a fill alone does not count |
| `Worksheet.HeaderRow` | index.js:128-132 | the header row holds each column's label as a string, unfilled |
| `Worksheet.Rows` | index.js:125-136 | the worksheet holds the header row of the columns, followed by the data rows |
| `Diff.FindByUrl` | index.js:137 | `oldData.find` returns the first old record whose `url` equals the new record's, and finds none exactly when no old record has that `url` |
| `Diff.FirstMatchUnique` | index.js:137 | there is only one first match |
| `Diff.Columns` | index.js:128-132 | definition: one column per key of the first record, in key order, labelled with the capitalised key, keyed by the key, 20 wide |
| `Diff.ColumnKeys` | index.js:128-132 | definition: the column keys, in column order |
| `Diff.ColumnKeysOfFirst` | index.js:128-132 | the column keys are the first record's keys |
| `Diff.ColumnIndex` | index.js:141 | `row.getCell(key)` reaches the column whose key is `key` |
| `Diff.AddedRow` | index.js:136 | definition: `addRow(newItem)` holds the record's value under each column key, unfilled |
| `Diff.MarkedRow` | index.js:140-151 | definition: the row after comparing the keys in `keys`; `Diff.MarkStep` and `Diff.MarkedIff` state which cells it fills |
| `Diff.MarkStep` | index.js:141-150 | comparing one more key fills at most the cell of that key's column, and only when its values differ |
| `Diff.CompareStep` | index.js:140-151 | one turn of the comparison loop keeps the row equal to the marked row of the keys compared so far |
| `Diff.CompareRow` | index.js:140-151 | the loop over the new record's keys yields the row with exactly the changed cells filled |
| `Diff.DiffRow` | index.js:135-153 | a row has one cell per column |
| `Diff.DiffRows` | index.js:135-153 | one row per new record, in order, each diffed against the baseline |
| `Diff.DiffRowsSnoc` | index.js:135 | the rows after one more record are the earlier rows plus that record's row |
| `Diff.DiffRowCases` | index.js:136-152 | a record without an old match gets the plain added row; one with a match gets the row marked against the first match over its own keys |
| `Diff.Changed` | index.js:142-144 | definition: the normalised new and old values differ; used by `Diff.MarkedIff` |
| `Diff.Marked` | index.js:137-150 | definition: a cell is to be yellow when a first old match exists, the key is the new record's, and the values changed; `Diff.MarkedIff` proves the diffed worksheet marks exactly these cells |
| `Diff.DiffSheet` | index.js:121-157 | definition: no worksheet for an empty batch, otherwise the columns of the first record and the diffed rows; `Diff.CreateAndCompare` is proved against it |
| `Diff.CreateAndCompare` | index.js:121-157 | the workbook built holds the columns of the first record and the diffed rows of all new records |
| `Diff.MarkedIff` | index.js:137-151 | each cell holds the record's value; its fill is yellow or none; and it is yellow exactly when a first old match exists, the key is one of the new record's keys, and the normalised values differ |
| `Diff.NoMatchNoMarks` | index.js:139 | a record whose `url` matches no old record gets no yellow cell |
| `Diff.UnchangedNoMarks` | index.js:139-150 | a record whose first old match reads the same under every one of its keys gets no yellow cell |
| `Diff.SelfDiffNoMarks` | index.js:135-153 | diffing a batch against itself gives a worksheet exactly when the batch is not empty, with no yellow cell when records sharing a `url` are equal |
| `Diff.SelfDiffWithDuplicateUrl` | index.js:137 | since the first match is used, two records sharing a `url` diffed against themselves mark the second one's changed cell |
| `Diff.PersistedBaselineSameDiff` | index.js:123-153 | diffing against the JSON copy of records with distinct keys gives the same worksheet as diffing against the records |
| `Diff.RowsAgree` | index.js:135-153 | the rows agree under that baseline, row by row |
| `Diff.PersistedBaselineSameRow` | index.js:137-151 | so does each row |
| `Diff.MarkedRowSameValues` | index.js:142-143 | rows compared against old records that read the same under every key are equal |
| `Diff.FindByUrlSameUrls` | index.js:137 | the search depends only on the old records' `url` values |
| `Html.Style` | index.js:247-250 | definition: the yellow style exactly when the fill passes `Worksheet.IsHighlighted`; `Html.OpenTdOf` reads it back |
| `Html.Th` | index.js:237 | definition: one header cell, skipped when empty; read back by `Html.ThStep` |
| `Html.Td` | index.js:248-252 | definition: one data cell with its style and its value or `''`; read back by `Html.TdStep` |
| `Html.Tr` | index.js:244-254 | definition: one data row; `Html.RowHtml` is proved against it and `Html.TrStep` reads it back |
| `Html.RenderHtml` | index.js:233-258 | definition: the whole page, printing only the data rows that hold a value; `Html.ConvertToHtml` is proved against it and `Html.RenderRoundTrip` reads it back |
| `Html.BodyRows` | index.js:243 | definition: the rows after row 1, which the `rowNumber === 1` test skips |
| `Html.ValuedRows` | index.js:242-255 | definition: the rows `eachRow` visits without `includeEmpty`, in order; its properties are `Html.ValuedRowsMember` and `Html.ValuedRowsAll` |
| `Html.ValuedRowsSnoc` | index.js:242-255 | one more row is visited exactly when it holds a value |
| `Html.ValuedRowsMember` | index.js:242-255 | a row is visited exactly when it is a row of the worksheet and holds a value |
| `Html.ValuedRowsAll` | index.js:242-255 | when every row holds a value, every row is visited, in order |
| `Html.EmptyRowSkipped` | index.js:242-255 | a data row whose only cell has no value is not printed, even when it is filled yellow |
| `Html.BodyHtml` | index.js:242-255 | the `eachRow` loop prints the `<tr>` of every row after row 1 that holds a value, in order, and nothing for the others |
| `Html.ConcatAppend` | index.js:233-257 | appending cell after cell concatenates their HTML |
| `Html.ConcatSnoc` | index.js:233-257 | the HTML of one more cell is appended at the end |
| `Html.RowHtml` | index.js:244-254 | a data row prints as `<tr>`, one `<td>` per cell in order (yellow-styled exactly when highlighted, holding the value or `''`), then `</tr>` |
| `Html.ConvertToHtml` | index.js:227-259 | the HTML is the table opening, a `<th>` per non-empty header cell, `</tr>`, one row per data row that holds a value, in order, then `</table>` |
| `Html.ShowRow` | index.js:245-253 | definition: what a row shows: per cell, its text and whether it is yellow |
| `Html.ShowRows` | index.js:242-255 | definition: what the body shows: one shown row per data row |
| `Html.PrefixOf` | index.js:233-257 | a string starts with its prefix, and after it comes the rest |
| `Html.NotPrefix` | index.js:233-257 | a string that differs from a tag at some position does not start with it |
| `Html.TextLength` | index.js:237 | definition: the length of a cell's text up to `<`; `Html.TextLengthOfPlain` states its value on plain text |
| `Html.ReadText` | index.js:237 | definition: the reader of a cell's text and closing tag; `Html.ReadTextOf` states what it reads |
| `Html.TextLengthOfPlain` | index.js:237 | a text without `<` is read whole |
| `Html.ReadTextOf` | index.js:237 | a text without `<`, followed by its closing tag, is read back exactly |
| `Html.ParseThs` | index.js:236-238 | reading `<th>` cells never grows the input |
| `Html.OpenTd` | index.js:248-252 | definition: the reader of a `<td` opening; `Html.OpenTdOf` states what it reads |
| `Html.ParseTds` | index.js:245-253 | reading `<td>` cells never grows the input |
| `Html.ParseTrs` | index.js:242-255 | reading rows never grows the input |
| `Html.ThStep` | index.js:237 | one `<th>` cell reads back as its text |
| `Html.ThsRoundTrip` | index.js:236-238 | the header cells read back as the texts of the non-empty header cells |
| `Html.OpenTdOf` | index.js:248-252 | a `<td` opening reads back as its style |
| `Html.TdStep` | index.js:248-252 | one `<td>` cell reads back as its text and its yellowness |
| `Html.RowEndOpensNoCell` | index.js:254 | `</tr>` opens no cell |
| `Html.ShowRowCons` | index.js:245-253 | what a row shows, cell by cell from the front |
| `Html.TdsRoundTrip` | index.js:245-253 | the cells of a row read back as what the row shows |
| `Html.TrStep` | index.js:244-254 | one row reads back as what it shows |
| `Html.ShowRowsCons` | index.js:242-255 | what the body shows, row by row from the front |
| `Html.TrsRoundTrip` | index.js:242-255 | the body rows read back as what they show |
| `Html.RenderShape` | index.js:233-257 | the page is the table opening, the header cells, `</tr>`, the body rows and `</table>` |
| `Html.ParseHtmlParts` | index.js:233-257 | the page reads back once its header cells and body rows do |
| `Html.RenderRoundTrip` | index.js:227-259 | when no text contains `<`, the HTML reads back as exactly the headers and rows, with the yellow cells, that the table shows |
| `Html.PartsRoundTrip` | index.js:233-257 | a page built from header cells and rows whose texts contain no `<` reads back as exactly their texts and yellow cells |
| `Grouping.GroupByHost` | index.js:182-186 | the `reduce` yields a key per hostname in first-occurrence order, each holding that hostname's sitemap URLs in input order |
| `Grouping.Hosts` | index.js:182-188 | definition: the hostnames in first-occurrence order; its properties are `Grouping.HostsMember`, `Grouping.HostsDistinct` and `Grouping.HostsPrefix` |
| `Grouping.UrlsOf` | index.js:184 | definition: a hostname's sitemap URLs in input order; its properties are `Grouping.UrlsOfAbsent`, `Grouping.UrlsOfPresent` and `Grouping.GroupsPartition` |
| `Grouping.HostsMember` | index.js:182-188 | a hostname is iterated exactly when some sitemap URL has it |
| `Grouping.HostsDistinct` | index.js:182-188 | each hostname is iterated once |
| `Grouping.HostsPrefix` | index.js:182-188 | more input only adds hostnames after those already seen |
| `Grouping.UrlsOfAbsent` | index.js:184 | a hostname no URL has holds no URLs |
| `Grouping.UrlsOfPresent` | index.js:184 | a hostname some URL has holds at least one URL |
| `Grouping.Groups` | index.js:182-188 | definition: one group per hostname, in iteration order |
| `Grouping.SitemapUrls` | index.js:165-180 | definition: the input URLs in order |
| `Grouping.FlattenSnoc` | index.js:184 | the URLs of one more group follow the URLs of the earlier ones |
| `Grouping.FlattenExtend` | index.js:184 | appending a URL to one group adds exactly that URL to all URLs |
| `Grouping.HostIndex` | index.js:188 | a hostname some URL has is at a position among the iterated hostnames |
| `Grouping.GroupsExtend` | index.js:184 | a URL of an already seen hostname is appended to that hostname's group only |
| `Grouping.GroupsAdd` | index.js:184 | a URL of a new hostname opens a new last group |
| `Grouping.GroupsPartition` | index.js:182-188 | the groups partition the input: every URL is in the groups exactly as often as in the input, duplicates included |
| `Grouping.DropNonWord` | index.js:189 | dropping a run of non-word characters never lengthens the string |
| `Grouping.Sanitize` | index.js:189 | definition: `replace(/\W+/g, '_')`; its properties are `Grouping.SanitizeRun`, `Grouping.SanitizeWord` and `Grouping.SanitizeFixed` |
| `Js.IsWordChar` | index.js:189 | definition: `\w` is `[A-Za-z0-9_]`, so `\W` is every other character |
| `Grouping.SanitizeWord` | index.js:189 | the sanitised hostname contains only word characters |
| `Grouping.SanitizeKeepsWords` | index.js:189 | a hostname of word characters is left unchanged |
| `Grouping.SanitizeFixed` | index.js:189 | sanitising changes nothing exactly when the hostname has only word characters, and sanitising twice is sanitising once |
| `Grouping.DropRun` | index.js:189 | a maximal run of non-word characters is consumed whole |
| `Grouping.SanitizeRun` | index.js:189 | word characters are kept, and each maximal run of non-word characters becomes exactly one `_` |
| `Grouping.DateSuffix` | index.js:190 | `slice(0, 10)` is the prefix of the ISO date of length ten, or the whole date when it is shorter |
| `Grouping.FileName` | index.js:191 | definition: the workbook name; its properties are `Grouping.FileNameParts` and `Grouping.FileNameInjective` |
| `Grouping.FileNameParts` | index.js:191 | the name is `ScrapedData_`, the sanitised hostname, `_`, the date, `.xlsx` |
| `Grouping.FileNameInjective` | index.js:191 | two hostnames share a workbook name exactly when they sanitise alike |
| `Grouping.FileNameNoSeparator` | index.js:191-192 | with a date free of `/`, the name stays in the script's directory |
| `Grouping.DistinctHostsShareFile` | index.js:189-191 | two distinct hostnames can share a workbook name |
| `Run.Kept` | index.js:206-209 | the filter chain keeps at most as many values as promises |
| `Run.KeptMember` | index.js:206-209 | a value is kept exactly when some promise fulfilled with it, so no `null` is ever kept |
| `Run.KeptConcat` | index.js:206-209 | the kept values of two lists of promises are kept in order |
| `Run.AllResults` | index.js:202-212 | definition: each sitemap's kept results, concatenated in sitemap order; its property is `Run.AllResultsMember` |
| `Run.Settle` | index.js:205-206 | definition: the settled promise of `scrapePage`, fulfilled with the page record or with `null` |
| `Run.AllResultsMember` | index.js:202-212 | a value is among a group's results exactly when a promise of one of its sitemaps fulfilled with it |
| `Run.SettleAll` | index.js:205-206 | definition: `allSettled` keeps one outcome per page, in page order |
| `Run.ScrapeSitemap` | index.js:204-209 | one sitemap's results are the kept outcomes of scraping its pages in order |
| `Run.Batches` | index.js:203-206 | definition: one list of outcomes per sitemap of the group, in sitemap order |
| `Run.CollectGroup` | index.js:202-212 | `allResults` is each sitemap's results in sitemap order, concatenated |
| `Run.GroupRecords` | index.js:202-211 | definition: a group's `allResults`; `Run.CollectGroup` is proved against it, and `Run.GroupRecordKeys` and `Run.GroupUniform` state what it holds |
| `Run.GroupRecordKeys` | index.js:202-212 | every record a group yields is a scraped page record with the seventeen keys and a string `url` |
| `Run.HoldValues` | index.js:135-136 | definition: every record holds a value under some key of the first record, so that its added row holds a value |
| `Run.GroupHoldsValues` | index.js:202-212 | the records of a group with results all hold their `url`, so every row of its worksheet holds a value |
| `Run.GroupUniform` | index.js:128-141 | a group's records have the first record's distinct keys, so every `getCell(key)` finds its column |
| `Run.ReportGroup` | index.js:214-219 | a group with records yields its workbook name, its diff against the baseline and the HTML of that worksheet |
| `Run.GroupReport` | index.js:188-219 | definition: a group's workbook name, diff against the baseline and HTML; `Run.ReportGroup` is proved against it |
| `Run.RunHosts` | index.js:188-223 | definition: the run over the hostnames, threading the baseline; `Run.RunScraper` is proved against it, and `Run.RunReportIs`, `Run.RunReport`, `Run.RunCount` and `Run.RunSaved` state what it yields |
| `Run.ProcessHost` | index.js:188-222 | a group without records changes nothing; a group with records adds its report and leaves its JSON copy as the baseline |
| `Run.RunHostsStep` | index.js:188-223 | one pass over a hostname, as the run describes it |
| `Run.RunStart` | index.js:188 | the loop invariant holds before the first hostname |
| `Run.RunInvariantStep` | index.js:188-223 | the invariant is kept across one hostname |
| `Run.RunDone` | index.js:223 | after the last hostname, the reports and the baseline are the run's |
| `Run.RunScraper` | index.js:162-224 | when no write, read or send fails, `main` produces exactly the reports and the final baseline of the run over the hostnames in first-occurrence order |
| `Run.ActiveHosts` | index.js:214 | every hostname of a reporting group yields records |
| `Run.RunCount` | index.js:214-222 | one report per hostname whose group yields records |
| `Run.RunSaved` | index.js:216 | the file ends up holding the JSON copy of the last reported group's records, or the run's baseline when none reported |
| `Run.RunReportIs` | index.js:188-223 | the `k`-th report is the `k`-th reporting group's, diffed against the group reported before it |
| `Run.RunReport` | index.js:188-222 | report `k` names the workbook after its sanitised hostname and date, holds the group's diff against the previous reported group (the run's baseline for the first), and mails that worksheet's HTML |
| `Run.BaselineBefore` | index.js:123-216 | definition: the records `readOldData` returns for the `k`-th reporting group: the run's baseline for the first and the JSON copy of the previous reporting group's records for the others; `Run.RunReport` is stated against it |
| `Run.SecondGroupAgainstFirst` | index.js:121-216 | the second reporting group's worksheet marks nothing when none of its URLs is a URL of the first group, whatever the run started from |
| `Run.HeaderTextsOfStrings` | index.js:236-238 | a header row of strings shows its strings |
| `Run.SheetPlain` | index.js:128-153 | when no label or value contains `<`, neither does any text of the worksheet |
| `Run.SheetRowsPlain` | index.js:135-153 | when no record value contains `<`, no cell of the worksheet's rows does |
| `Run.SheetRowsHaveValues` | index.js:135-153 | when every record holds a value, every row of the worksheet holds a value |
| `Run.ShownBody` | index.js:242-255 | when every record holds a value, the mailed table shows every row of the worksheet |
| `Run.SheetShownRows` | index.js:135-153 | the worksheet's rows show, per record and key, the record's value, yellow exactly when the diff marked it |
| `Run.ShownHeaders` | index.js:128-132 | the mailed table's headers are the capitalised keys of the first record |
| `Run.ShownRows` | index.js:135-153 | when every record holds a value under a key of the first record (as every scraped group does, `Run.GroupHoldsValues`), the mailed table has one row per record and one cell per key, holding the record's value or nothing, yellow exactly when the diff marked it |
| `Run.SheetHtmlShowsMarks` | index.js:214-219 | when no label or value contains `<`, the mailed HTML reads back as the table the worksheet shows |

## Left out

- Network, parsing and library I/O are replaced by inputs:
  - `Run.Crawl` gives the list of scraped pages of each fetch of a sitemap. This replaces `fetchSitemap` (index.js:13-22), axios, xml2js and cheerio. A fetch is identified by the sitemap URL and its position among its group's URLs, so a sitemap listed twice (index.js:166-167) may list different pages, or none, the second time.
  - A page is given as its meta tags, keyed by property, and its already-parsed JSON-LD blocks. `JSON.parse` failure is a block of its own.
- ExcelJS is taken as an in-memory worksheet that the write and the read give back unchanged:
  - the codec and `writeFile`/`readFile` (index.js:155,229) are not modelled;
  - the per-group `readExcelFile` (index.js:94-118,194-200) is left out, because its result is never used.
- The model renders every column of a data row. ExcelJS `eachCell({ includeEmpty: true })` stops at a row's last created cell, so for trailing `undefined` cells that were never created the source prints no `<td>`.
- The file system (`fs.readFile`, `fs.writeFile`, `fs.access`) is taken as the baseline records passed in and the records passed out. `readOldData`'s fallback to `[]` is the caller choosing an empty baseline.
- `new URL(...).hostname` (index.js:183) is taken as input: each sitemap URL comes paired with its hostname.
- `new Date().toISOString()` (index.js:190) is taken as input: one date string per run, which the source reads again for every group.
- `Run.RunScraper`: no write, read or send fails. In the source a failure of `workbook.xlsx.writeFile` (index.js:155), of `saveNewData`'s `fs.writeFile` (index.js:80), of `workbook.xlsx.readFile` (index.js:229) or of `transporter.sendMail` (index.js:289) rejects `main`, which `main().catch` (index.js:292) only logs. That ends the run after that group, and the later groups are not processed. When the send fails, the baseline file has already been overwritten.
- Nodemailer, SMTP, dotenv and console logging are left out. `sendEmailWithAttachment` calls `convertExcelToHTML` again on the same file (index.js:263); the result is the same HTML, so it is modelled once.
- The concurrency of `Promise.allSettled` is left out. `scrapePage` never rejects, so no promise is rejected, and `allSettled` keeps input order.
- `toLocaleDateString` for `Date` cell values (index.js:251) is left out: scraped values are strings and booleans only.
- HTML escaping is absent in the source. `Html.RenderRoundTrip` therefore requires that no text contains `<`.
- `Js.UpperAscii` and `Js.Capitalize`: `toUpperCase` is modelled for ASCII only. A first character outside ASCII is left unchanged rather than upper-cased. (For `/noindex/i` ASCII folding is exact: without the `u` flag no non-ASCII character folds to an ASCII letter.)
- `Extract.TypeName`: a `@type` here is a string or absent. A non-string `@type`, such as an array of type names, is not modelled; `push` would keep it and `join` would print it comma-separated.
- `Grouping.GroupByHost`: a hostname equal to an `Object.prototype` member name such as `__proto__` is treated like any other key. In JavaScript such hostnames behave differently as keys of `acc`.
- `Diff.CreateAndCompare` requires that every record uses only keys of the first record, whose keys are distinct. With other keys, ExcelJS `getCell` on an unknown key behaves in ways not modelled here. `Run.GroupUniform` proves that the scraper's records always meet this.
- `Run.SecondGroupAgainstFirst` states the no-match case only. Which cells the diff marks in general is stated by `Diff.MarkedIff` and `Run.RunReport`.
