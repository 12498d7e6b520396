/** `convertExcelToHTML`: the worksheet's rows rendered as an HTML table whose header
    row comes from row 1 and whose cells carry a yellow background when their fill is
    the highlight, together with a reader that recovers the table from the HTML. */
module Html {
  import opened Js
  import opened Worksheet

  // ---------------------------------------------------------------- rendering

  /** The pieces `f` renders for `xs`, one after the other. */
  function Concat<T>(xs: seq<T>, f: T -> string): string {
    if xs == [] then "" else f(xs[0]) + Concat(xs[1..], f)
  }

  lemma {:induction false} ConcatAppend<T>(xs: seq<T>, ys: seq<T>, f: T -> string)
    ensures Concat(xs + ys, f) == Concat(xs, f) + Concat(ys, f)
  {
    if xs == [] {
      assert xs + ys == ys;
    } else {
      assert (xs + ys)[1..] == xs[1..] + ys;
      ConcatAppend(xs[1..], ys, f);
    }
  }

  /** Appending one element renders one more piece at the end. */
  lemma ConcatSnoc<T>(xs: seq<T>, k: nat, f: T -> string)
    requires k < |xs|
    ensures Concat(xs[..k + 1], f) == Concat(xs[..k], f) + f(xs[k])
  {
    assert xs[..k + 1] == xs[..k] + [xs[k]];
    ConcatAppend(xs[..k], [xs[k]], f);
  }

  const TableOpen: string := "<table border=\"2\"><tr>"
  const YellowStyle: string := " style=\"background-color: yellow;\""

  /** `<th>${cell.value}</th>` for each non-empty cell of row 1 (`eachCell` without
      `includeEmpty` skips empty cells). */
  function Th(c: Cell): string {
    if c.value.Absent? then "" else "<th>" + ToText(c.value) + "</th>"
  }

  /** The style a cell's fill asks for. */
  function Style(f: Fill): (s: string)
    ensures s == YellowStyle <==> IsHighlighted(f)
    ensures s == "" <==> !IsHighlighted(f)
  {
    if IsHighlighted(f) then YellowStyle else ""
  }

  /** `<td${style}>${cellValue || ''}</td>`. */
  function Td(c: Cell): string {
    "<td" + Style(c.fill) + ">" + TextOrEmpty(c.value) + "</td>"
  }

  function Tr(row: seq<Cell>): string {
    "<tr>" + Concat(row, Td) + "</tr>"
  }

  function HeaderRowOf(t: seq<seq<Cell>>): seq<Cell> {
    if t == [] then [] else t[0]
  }

  /** The rows after row 1, which `if (rowNumber === 1) return;` skips. */
  function BodyRows(t: seq<seq<Cell>>): seq<seq<Cell>> {
    if t == [] then [] else t[1..]
  }

  /** The rows `worksheet.eachRow` visits: without `includeEmpty` it skips every row
      that holds no value, in order. */
  function ValuedRows(rows: seq<seq<Cell>>): seq<seq<Cell>> {
    if rows == [] then []
    else ValuedRows(rows[..|rows| - 1]) + (if HasValue(rows[|rows| - 1]) then [rows[|rows| - 1]] else [])
  }

  lemma ValuedRowsSnoc(rows: seq<seq<Cell>>, i: nat)
    requires i < |rows|
    ensures ValuedRows(rows[..i + 1]) == ValuedRows(rows[..i]) + (if HasValue(rows[i]) then [rows[i]] else [])
  {
    assert rows[..i + 1][..i] == rows[..i];
  }

  /** A row is visited exactly when it is a row of the worksheet that holds a value. */
  lemma {:induction false} ValuedRowsMember(rows: seq<seq<Cell>>, row: seq<Cell>)
    ensures row in ValuedRows(rows) <==> row in rows && HasValue(row)
  {
    if rows != [] {
      var init := rows[..|rows| - 1];
      ValuedRowsMember(init, row);
      assert rows == init + [rows[|rows| - 1]];
    }
  }

  /** When every row holds a value, every row is visited, in order. */
  lemma {:induction false} ValuedRowsAll(rows: seq<seq<Cell>>)
    requires forall i :: 0 <= i < |rows| ==> HasValue(rows[i])
    ensures ValuedRows(rows) == rows
  {
    if rows != [] {
      var init := rows[..|rows| - 1];
      ValuedRowsAll(init);
      assert rows == init + [rows[|rows| - 1]];
    }
  }

  /** A row that holds no value is not printed, even when it is filled yellow. */
  lemma EmptyRowSkipped()
    ensures RenderHtml([[Cell(Str("Url"), NoFill)], [Cell(Absent, Highlight)]])
            == "<table border=\"2\"><tr><th>Url</th></tr></table>"
  {
    var t := [[Cell(Str("Url"), NoFill)], [Cell(Absent, Highlight)]];
    var header := HeaderRowOf(t);
    assert header[1..] == [];
    assert Concat(header, Th) == "<th>Url</th>" + "";
    var body := BodyRows(t);
    assert body == [t[1]] && body[..0] == [];
    assert !HasValue(t[1]);
    assert ValuedRows(body) == ValuedRows([]) + [];
    assert Concat(DataRowsOf(t), Tr) == "";
  }

  /** The data rows the renderer prints. */
  function DataRowsOf(t: seq<seq<Cell>>): seq<seq<Cell>> {
    ValuedRows(BodyRows(t))
  }

  /** The HTML `convertExcelToHTML` returns for the rows of the worksheet. */
  function RenderHtml(t: seq<seq<Cell>>): string {
    TableOpen + Concat(HeaderRowOf(t), Th) + "</tr>" + Concat(DataRowsOf(t), Tr) + "</table>"
  }

  /** One `<tr>` of `convertExcelToHTML`: a `<td>` per cell, styled yellow when the
      cell's fill is the yellow pattern. */
  method RowHtml(row: seq<Cell>) returns (line: string)
    ensures line == Tr(row)
  {
    line := "<tr>";
    var k := 0;
    while k < |row|
      invariant 0 <= k <= |row|
      invariant line == "<tr>" + Concat(row[..k], Td)
    {
      ConcatSnoc(row, k, Td);
      var style := "";
      if row[k].fill.Pattern? && row[k].fill.argb == Some("FFFFFF00") {
        style := YellowStyle;
      }
      var cell := "<td" + style + ">" + TextOrEmpty(row[k].value) + "</td>";
      assert cell == Td(row[k]);
      AppendAssoc("<tr>", Concat(row[..k], Td), cell);
      line := line + cell;
      k := k + 1;
    }
    assert row[..k] == row;
    line := line + "</tr>";
  }

  /** The `eachRow` loop of `convertExcelToHTML`: a `<tr>` for every row after row 1
      that holds a value, in order. */
  method BodyHtml(rows: seq<seq<Cell>>) returns (body: string)
    ensures body == Concat(ValuedRows(rows), Tr)
  {
    body := "";
    var i := 0;
    while i < |rows|
      invariant 0 <= i <= |rows|
      invariant body == Concat(ValuedRows(rows[..i]), Tr)
    {
      ValuedRowsSnoc(rows, i);
      if HasValue(rows[i]) {
        var line := RowHtml(rows[i]);
        ConcatAppend(ValuedRows(rows[..i]), [rows[i]], Tr);
        assert [rows[i]][1..] == [];
        assert Concat([rows[i]], Tr) == line + "" == line;
        body := body + line;
      } else {
        assert ValuedRows(rows[..i]) + [] == ValuedRows(rows[..i]);
      }
      i := i + 1;
    }
    assert rows[..i] == rows;
  }

  /** `convertExcelToHTML(filePath)` once the worksheet is read: `html` grows by `+=`
      over the cells of row 1, then over every later row that holds a value. */
  method ConvertToHtml(t: seq<seq<Cell>>) returns (html: string)
    ensures html == RenderHtml(t)
  {
    html := TableOpen;
    var header: seq<Cell> := HeaderRowOf(t);
    var j := 0;
    while j < |header|
      invariant 0 <= j <= |header|
      invariant html == TableOpen + Concat(header[..j], Th)
    {
      ConcatSnoc(header, j, Th);
      if !header[j].value.Absent? {
        AppendAssoc(TableOpen, Concat(header[..j], Th), Th(header[j]));
        html := html + ("<th>" + ToText(header[j].value) + "</th>");
      }
      j := j + 1;
    }
    assert header[..j] == header;
    html := html + "</tr>";
    var body := BodyHtml(BodyRows(t));
    html := html + body;
    html := html + "</table>";
  }

  // ---------------------------------------------------------------- what the HTML shows

  /** A rendered body cell: its text and whether it is shown yellow. */
  datatype ShownCell = ShownCell(text: string, yellow: bool)

  /** What a reader of the HTML sees: the header texts and the body rows. */
  datatype ShownTable = ShownTable(headers: seq<string>, rows: seq<seq<ShownCell>>)

  function HeaderTexts(cells: seq<Cell>): seq<string> {
    if cells == [] then []
    else (if cells[0].value.Absent? then [] else [ToText(cells[0].value)]) + HeaderTexts(cells[1..])
  }

  function ShowCell(c: Cell): ShownCell {
    ShownCell(TextOrEmpty(c.value), IsHighlighted(c.fill))
  }

  function ShowRow(row: seq<Cell>): (r: seq<ShownCell>)
    ensures |r| == |row| && forall j :: 0 <= j < |row| ==> r[j] == ShowCell(row[j])
  {
    seq(|row|, j requires 0 <= j < |row| => ShowCell(row[j]))
  }

  function ShowRows(rows: seq<seq<Cell>>): (r: seq<seq<ShownCell>>)
    ensures |r| == |rows| && forall i :: 0 <= i < |rows| ==> r[i] == ShowRow(rows[i])
  {
    seq(|rows|, i requires 0 <= i < |rows| => ShowRow(rows[i]))
  }

  /** The table the HTML is meant to show. */
  function Shown(t: seq<seq<Cell>>): ShownTable {
    ShownTable(HeaderTexts(HeaderRowOf(t)), ShowRows(DataRowsOf(t)))
  }

  // ---------------------------------------------------------------- reading it back

  predicate StartsWith(s: string, p: string) {
    |p| <= |s| && s[..|p|] == p
  }

  lemma PrefixOf(p: string, x: string)
    ensures StartsWith(p + x, p) && (p + x)[|p|..] == x
  {
  }

  /** A string that differs from `p` at position `k` does not start with `p`. */
  lemma NotPrefix(s: string, p: string, k: nat)
    requires k < |p| && k < |s| && s[k] != p[k]
    ensures !StartsWith(s, p)
  {
    if |p| <= |s| {
      assert s[..|p|][k] == s[k];
    }
  }

  /** The length of the text before the next tag. */
  function TextLength(s: string): (n: nat)
    ensures n <= |s|
  {
    if s == [] || s[0] == '<' then 0 else 1 + TextLength(s[1..])
  }

  /** Splits off the text before the next tag and the closing tag `close` after it. */
  function ReadText(s: string, close: string): (r: Option<(string, string)>)
    ensures r.Some? ==> |r.value.1| < |s| + 1 - |close|
  {
    var n := TextLength(s);
    if StartsWith(s[n..], close) then Some((s[..n], s[n..][|close|..])) else None
  }

  lemma {:induction false} TextLengthOfPlain(text: string, rest: string)
    requires '<' !in text && rest != [] && rest[0] == '<'
    ensures TextLength(text + rest) == |text|
  {
    if text != [] {
      assert (text + rest)[1..] == text[1..] + rest;
      TextLengthOfPlain(text[1..], rest);
    } else {
      assert text + rest == rest;
    }
  }

  /** Reading a `<`-free text and its closing tag gives back the text and what follows. */
  lemma ReadTextOf(text: string, close: string, rest: string)
    requires '<' !in text && |close| > 0 && close[0] == '<'
    ensures ReadText(text + (close + rest), close) == Some((text, rest))
  {
    var s := text + (close + rest);
    TextLengthOfPlain(text, close + rest);
    assert s[..|text|] == text && s[|text|..] == close + rest;
    PrefixOf(close, rest);
  }

  function ParseThs(s: string): (r: Option<(seq<string>, string)>)
    ensures r.Some? ==> |r.value.1| <= |s|
    decreases |s|
  {
    if !StartsWith(s, "<th>") then Some(([], s))
    else
      match ReadText(s[4..], "</th>")
      case None => None
      case Some((text, after)) =>
        match ParseThs(after)
        case None => None
        case Some((texts, rest)) => Some(([text] + texts, rest))
  }

  const PlainOpen: string := "<td>"
  const YellowOpen: string := "<td" + YellowStyle + ">"

  /** The opening `<td>` tag at the front of `s`: whether it is yellow, and what follows. */
  function OpenTd(s: string): (r: Option<(bool, string)>)
    ensures r.Some? ==> |r.value.1| < |s|
  {
    if StartsWith(s, YellowOpen) then Some((true, s[|YellowOpen|..]))
    else if StartsWith(s, PlainOpen) then Some((false, s[|PlainOpen|..]))
    else None
  }

  function ParseTds(s: string): (r: Option<(seq<ShownCell>, string)>)
    ensures r.Some? ==> |r.value.1| <= |s|
    decreases |s|
  {
    match OpenTd(s)
    case None => Some(([], s))
    case Some((yellow, body)) =>
      match ReadText(body, "</td>")
      case None => None
      case Some((text, after)) =>
        match ParseTds(after)
        case None => None
        case Some((cells, rest)) => Some(([ShownCell(text, yellow)] + cells, rest))
  }

  function ParseTrs(s: string): (r: Option<(seq<seq<ShownCell>>, string)>)
    ensures r.Some? ==> |r.value.1| <= |s|
    decreases |s|
  {
    if !StartsWith(s, "<tr>") then Some(([], s))
    else
      match ParseTds(s[4..])
      case None => None
      case Some((cells, after)) =>
        if !StartsWith(after, "</tr>") then None
        else
          match ParseTrs(after[5..])
          case None => None
          case Some((rows, rest)) => Some(([cells] + rows, rest))
  }

  /** Reads a table in the renderer's format back from its HTML. */
  function ParseHtml(s: string): Option<ShownTable> {
    if !StartsWith(s, TableOpen) then None
    else
      match ParseThs(s[|TableOpen|..])
      case None => None
      case Some((headers, afterHeader)) =>
        if !StartsWith(afterHeader, "</tr>") then None
        else
          match ParseTrs(afterHeader[5..])
          case None => None
          case Some((rows, afterRows)) =>
            if afterRows == "</table>" then Some(ShownTable(headers, rows)) else None
  }

  // ---------------------------------------------------------------- the round trip

  /** No text the renderer prints contains `<`: nothing is escaped, so a `<` in a
      value would read as markup. */
  predicate PlainTexts(t: seq<seq<Cell>>) {
    (forall j :: 0 <= j < |HeaderRowOf(t)| ==> '<' !in ToText(HeaderRowOf(t)[j].value))
    && (forall i, j :: 0 <= i < |DataRowsOf(t)| && 0 <= j < |DataRowsOf(t)[i]| ==>
          '<' !in TextOrEmpty(DataRowsOf(t)[i][j].value))
  }

  lemma ThStep(c: Cell, tail: string)
    requires !c.value.Absent? && '<' !in ToText(c.value)
    ensures ParseThs(Th(c) + tail) ==
      match ParseThs(tail)
      case None => None
      case Some((texts, rest)) => Some(([ToText(c.value)] + texts, rest))
  {
    var text := ToText(c.value);
    AppendAssoc("<th>" + text, "</th>", tail);
    AppendAssoc("<th>", text, "</th>" + tail);
    PrefixOf("<th>", text + ("</th>" + tail));
    ReadTextOf(text, "</th>", tail);
  }

  lemma {:induction false} ThsRoundTrip(cells: seq<Cell>, rest: string)
    requires forall j :: 0 <= j < |cells| ==> '<' !in ToText(cells[j].value)
    requires !StartsWith(rest, "<th>")
    ensures ParseThs(Concat(cells, Th) + rest) == Some((HeaderTexts(cells), rest))
  {
    if cells == [] {
      assert Concat(cells, Th) + rest == rest;
    } else {
      var c := cells[0];
      var tail := Concat(cells[1..], Th) + rest;
      ThsRoundTrip(cells[1..], rest);
      AppendAssoc(Th(c), Concat(cells[1..], Th), rest);
      if c.value.Absent? {
        assert Th(c) + tail == tail;
        assert HeaderTexts(cells) == HeaderTexts(cells[1..]);
      } else {
        ThStep(c, tail);
      }
    }
  }

  /** The opening tag of a rendered cell reads back as yellow iff the cell is highlighted. */
  lemma OpenTdOf(f: Fill, x: string)
    ensures OpenTd("<td" + Style(f) + ">" + x) == Some((IsHighlighted(f), x))
  {
    var s := "<td" + Style(f) + ">" + x;
    if IsHighlighted(f) {
      assert s == YellowOpen + x;
      PrefixOf(YellowOpen, x);
    } else {
      assert s == PlainOpen + x;
      NotPrefix(s, YellowOpen, 3);
      PrefixOf(PlainOpen, x);
    }
  }

  lemma TdStep(c: Cell, tail: string)
    requires '<' !in TextOrEmpty(c.value)
    ensures ParseTds(Td(c) + tail) ==
      match ParseTds(tail)
      case None => None
      case Some((cells, rest)) => Some(([ShowCell(c)] + cells, rest))
  {
    var text := TextOrEmpty(c.value);
    var open := "<td" + Style(c.fill) + ">";
    AppendAssoc(open + text, "</td>", tail);
    AppendAssoc(open, text, "</td>" + tail);
    OpenTdOf(c.fill, text + ("</td>" + tail));
    ReadTextOf(text, "</td>", tail);
  }

  /** After the cells of a row comes `</tr>`, which opens no cell. */
  lemma RowEndOpensNoCell(s: string)
    requires StartsWith(s, "</tr>")
    ensures OpenTd(s) == None
  {
    assert s[..5] == "</tr>";
    assert s[1] == '/';
    NotPrefix(s, YellowOpen, 1);
    NotPrefix(s, PlainOpen, 1);
  }

  lemma ShowRowCons(cells: seq<Cell>)
    requires cells != []
    ensures ShowRow(cells) == [ShowCell(cells[0])] + ShowRow(cells[1..])
  {
  }

  lemma {:induction false} TdsRoundTrip(cells: seq<Cell>, rest: string)
    requires forall j :: 0 <= j < |cells| ==> '<' !in TextOrEmpty(cells[j].value)
    requires StartsWith(rest, "</tr>")
    ensures ParseTds(Concat(cells, Td) + rest) == Some((ShowRow(cells), rest))
  {
    if cells == [] {
      assert Concat(cells, Td) + rest == rest;
      RowEndOpensNoCell(rest);
    } else {
      var c := cells[0];
      var tail := Concat(cells[1..], Td) + rest;
      TdsRoundTrip(cells[1..], rest);
      AppendAssoc(Td(c), Concat(cells[1..], Td), rest);
      TdStep(c, tail);
      ShowRowCons(cells);
    }
  }

  lemma TrStep(row: seq<Cell>, tail: string)
    requires forall j :: 0 <= j < |row| ==> '<' !in TextOrEmpty(row[j].value)
    ensures ParseTrs(Tr(row) + tail) ==
      match ParseTrs(tail)
      case None => None
      case Some((rows, rest)) => Some(([ShowRow(row)] + rows, rest))
  {
    var after := "</tr>" + tail;
    AppendAssoc("<tr>" + Concat(row, Td), "</tr>", tail);
    AppendAssoc("<tr>", Concat(row, Td), after);
    PrefixOf("<tr>", Concat(row, Td) + after);
    PrefixOf("</tr>", tail);
    TdsRoundTrip(row, after);
  }

  lemma ShowRowsCons(rows: seq<seq<Cell>>)
    requires rows != []
    ensures ShowRows(rows) == [ShowRow(rows[0])] + ShowRows(rows[1..])
  {
  }

  lemma {:induction false} TrsRoundTrip(rows: seq<seq<Cell>>, rest: string)
    requires forall i, j :: 0 <= i < |rows| && 0 <= j < |rows[i]| ==> '<' !in TextOrEmpty(rows[i][j].value)
    requires !StartsWith(rest, "<tr>")
    ensures ParseTrs(Concat(rows, Tr) + rest) == Some((ShowRows(rows), rest))
  {
    if rows == [] {
      assert Concat(rows, Tr) + rest == rest;
    } else {
      var row := rows[0];
      var tail := Concat(rows[1..], Tr) + rest;
      TrsRoundTrip(rows[1..], rest);
      AppendAssoc(Tr(row), Concat(rows[1..], Tr), rest);
      TrStep(row, tail);
      ShowRowsCons(rows);
    }
  }

  /** The rendered page, grouped from the right as the parser reads it. */
  lemma RenderShape(t: seq<seq<Cell>>)
    ensures RenderHtml(t)
            == TableOpen + (Concat(HeaderRowOf(t), Th) + ("</tr>" + (Concat(DataRowsOf(t), Tr) + "</table>")))
  {
    var header := Concat(HeaderRowOf(t), Th);
    var body := Concat(DataRowsOf(t), Tr);
    AppendAssoc(TableOpen + header + "</tr>", body, "</table>");
    AppendAssoc(TableOpen + header, "</tr>", body + "</table>");
    AppendAssoc(TableOpen, header, "</tr>" + (body + "</table>"));
  }

  /** The page parses once its header cells and its body rows do. */
  lemma ParseHtmlParts(ths: string, headers: seq<string>, trs: string, rows: seq<seq<ShownCell>>)
    requires ParseThs(ths + ("</tr>" + (trs + "</table>"))) == Some((headers, "</tr>" + (trs + "</table>")))
    requires ParseTrs(trs + "</table>") == Some((rows, "</table>"))
    ensures ParseHtml(TableOpen + (ths + ("</tr>" + (trs + "</table>")))) == Some(ShownTable(headers, rows))
  {
    PrefixOf(TableOpen, ths + ("</tr>" + (trs + "</table>")));
    PrefixOf("</tr>", trs + "</table>");
  }

  /** Reading the rendered HTML back gives exactly the table it shows: the header
      texts of row 1, then one `<tr>` per later row that holds a value, with one `<td>`
      per cell that is yellow iff the cell's fill is the yellow pattern and whose text
      is the value, or nothing for a falsy value. Holds whenever no text contains `<`. */
  lemma RenderRoundTrip(t: seq<seq<Cell>>)
    requires PlainTexts(t)
    ensures ParseHtml(RenderHtml(t)) == Some(Shown(t))
  {
    RenderShape(t);
    PartsRoundTrip(HeaderRowOf(t), DataRowsOf(t));
  }

  /** A page built from `<`-free header cells and rows reads back as their texts. */
  lemma PartsRoundTrip(header: seq<Cell>, rows: seq<seq<Cell>>)
    requires forall j :: 0 <= j < |header| ==> '<' !in ToText(header[j].value)
    requires forall i, j :: 0 <= i < |rows| && 0 <= j < |rows[i]| ==> '<' !in TextOrEmpty(rows[i][j].value)
    ensures ParseHtml(TableOpen + (Concat(header, Th) + ("</tr>" + (Concat(rows, Tr) + "</table>"))))
            == Some(ShownTable(HeaderTexts(header), ShowRows(rows)))
  {
    var afterHeader := "</tr>" + (Concat(rows, Tr) + "</table>");
    NotPrefix(afterHeader, "<th>", 1);
    ThsRoundTrip(header, afterHeader);
    NotPrefix("</table>", "<tr>", 1);
    TrsRoundTrip(rows, "</table>");
    ParseHtmlParts(Concat(header, Th), HeaderTexts(header), Concat(rows, Tr), ShowRows(rows));
  }
}
