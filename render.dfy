/**
 * The admin page's built-in table, used when no `admin.html` template exists:
 * one `<tr>` of twelve `<td>` cells per row, in listing order, or a single
 * placeholder row when there is nothing to show. Cell texts are inserted as
 * they are, without HTML escaping.
 */
module Render {
  import opened Wrappers
  import opened Submissions
  import Text

  /** `safe(v)` on a text column: `""` for a null, the text itself otherwise. */
  function Safe(v: Option<string>): (r: string)
    ensures v.None? ==> r == ""
    ensures v.Some? ==> r == v.value
  {
    v.GetOr("")
  }

  /** Each part of a valid date fits its field: four digits of year, two of month, two of day. */
  lemma DatePartsFit(d: Date)
    ensures |Text.Pad(d.year, 4)| == 4 && Text.DecimalValue(Text.Pad(d.year, 4)) == d.year
    ensures |Text.Pad(d.month, 2)| == 2 && Text.DecimalValue(Text.Pad(d.month, 2)) == d.month
    ensures |Text.Pad(d.day, 2)| == 2 && Text.DecimalValue(Text.Pad(d.day, 2)) == d.day
  {
    Text.NatTextLength(d.year, 4);
    Text.NatTextLength(d.month, 2);
    Text.NatTextLength(d.day, 2);
    Text.PadValue(d.year, 4);
    Text.PadValue(d.month, 2);
    Text.PadValue(d.day, 2);
  }

  /** `str(d)` for a date: `YYYY-MM-DD`, each part zero-padded. */
  function DateText(d: Date): (r: string)
    ensures |r| == 10 && r[4] == '-' && r[7] == '-'
  {
    DatePartsFit(d);
    Text.Pad(d.year, 4) + "-" + Text.Pad(d.month, 2) + "-" + Text.Pad(d.day, 2)
  }

  /** `safe(v)` on the date column. */
  function SafeDate(v: Option<Date>): (r: string)
    ensures r == "" <==> v.None?
  {
    match v
    case None => ""
    case Some(d) => DateText(d)
  }

  /** The table's columns. */
  datatype Column =
    | Id | CreatedAt | Name | Email | Tel | Birth | Gender | Hobbies | City | EnglishScore | Source | Feedback

  /** The columns in display order. */
  const Columns: seq<Column> :=
    [Column.Id, Column.CreatedAt, Column.Name, Column.Email, Column.Tel, Column.Birth, Column.Gender,
     Column.Hobbies, Column.City, Column.EnglishScore, Column.Source, Column.Feedback]

  /** The header cells, one per column, in the same order. */
  const Headers: seq<string> :=
    ["ID", "時間", "姓名", "Email", "電話", "生日", "性別", "興趣", "城市", "英文分數", "來源", "意見"]

  /**
   * The text shown for column `col` of row `r`: `safe` of the column's value.
   * `timeText` is the library's `str` on a timestamp.
   */
  function ColumnText(r: Submission, col: Column, timeText: int -> string): string {
    match col
    case Id => Text.NatText(r.id)
    case CreatedAt => timeText(r.createdAt)
    case Name => Safe(r.name)
    case Email => Safe(r.email)
    case Tel => Safe(r.tel)
    case Birth => SafeDate(r.birth)
    case Gender => Safe(r.gender)
    case Hobbies => Safe(r.hobbies)
    case City => Safe(r.city)
    case EnglishScore => Safe(r.englishScore)
    case Source => Safe(r.source)
    case Feedback => Safe(r.feedback)
  }

  /** The cell texts of one table row, as the row template writes them. */
  function Cells(r: Submission, timeText: int -> string): (c: seq<string>)
    ensures |c| == |Columns| == |Headers| == 12
    ensures forall i :: 0 <= i < 12 ==> c[i] == ColumnText(r, Columns[i], timeText)
  {
    seq(|Columns|, i requires 0 <= i < |Columns| => ColumnText(r, Columns[i], timeText))
  }

  /** One `<td>` element: the text, unchanged, between `<td>` and `</td>`. */
  function Cell(text: string): (html: string)
    ensures |html| == |text| + 9
    ensures html[..4] == "<td>" && html[4..|html| - 5] == text && html[|html| - 5..] == "</td>"
  {
    var html := "<td>" + text + "</td>";
    assert html[..4] == "<td>" && html[4..|html| - 5] == text && html[|html| - 5..] == "</td>";
    html
  }

  /** The `<td>` elements of a row: one per cell text, in the order given. */
  function TdCells(c: seq<string>): string {
    Text.Join("", seq(|c|, i requires 0 <= i < |c| => Cell(c[i])))
  }

  /** The first cell's `<td>` comes first, followed by the rest of the row's cells. */
  lemma TdCellsCons(c: seq<string>)
    requires c != []
    ensures TdCells(c) == Cell(c[0]) + TdCells(c[1..])
  {
    var xs := seq(|c|, i requires 0 <= i < |c| => Cell(c[i]));
    Text.JoinNoSeparatorHead(xs);
    assert xs[1..] == seq(|c[1..]|, i requires 0 <= i < |c[1..]| => Cell(c[1..][i]));
  }

  /** No cell texts give no `<td>` elements. */
  lemma TdCellsEmpty()
    ensures TdCells([]) == ""
  {
  }

  /** One `<tr>` element: the `<td>` elements of the row's twelve cells, in column order. */
  function Row(r: Submission, timeText: int -> string): (html: string)
    ensures html == "<tr>" + TdCells(Cells(r, timeText)) + "</tr>"
    ensures |html| >= 9 && html[..4] == "<tr>" && html[|html| - 5..] == "</tr>"
  {
    "<tr>" + TdCells(Cells(r, timeText)) + "</tr>"
  }

  /** `"".join(...)` of the rows: every row, in the order given. */
  function RowsHtml(rows: seq<Submission>, timeText: int -> string): string {
    Text.Join("", seq(|rows|, i requires 0 <= i < |rows| => Row(rows[i], timeText)))
  }

  const Placeholder: string := "<tr><td colspan=12>尚無資料</td></tr>"

  /** The rows render in the order given, each exactly once: the first row comes first. */
  lemma RowsHtmlCons(rows: seq<Submission>, timeText: int -> string)
    requires rows != []
    ensures RowsHtml(rows, timeText) == Row(rows[0], timeText) + RowsHtml(rows[1..], timeText)
  {
    var xs := seq(|rows|, i requires 0 <= i < |rows| => Row(rows[i], timeText));
    Text.JoinNoSeparatorHead(xs);
    assert xs[1..] == seq(|rows[1..]|, i requires 0 <= i < |rows[1..]| => Row(rows[1..][i], timeText));
  }

  /** Rendering neither drops nor reorders rows: the rendering of a concatenation is the concatenation of the renderings. */
  lemma RowsHtmlAppend(a: seq<Submission>, b: seq<Submission>, timeText: int -> string)
    ensures RowsHtml(a + b, timeText) == RowsHtml(a, timeText) + RowsHtml(b, timeText)
  {
    var xa := seq(|a|, i requires 0 <= i < |a| => Row(a[i], timeText));
    var xb := seq(|b|, i requires 0 <= i < |b| => Row(b[i], timeText));
    var ab := a + b;
    assert seq(|ab|, i requires 0 <= i < |ab| => Row(ab[i], timeText)) == xa + xb;
    Text.JoinNoSeparatorAppend(xa, xb);
  }

  /** The rows render as the empty string exactly when there are none. */
  lemma RowsHtmlEmpty(rows: seq<Submission>, timeText: int -> string)
    ensures RowsHtml(rows, timeText) == "" <==> rows == []
  {
    if rows != [] {
      RowsHtmlCons(rows, timeText);
    }
  }

  /**
   * The table body, `html_rows or placeholder`: the placeholder row for an empty
   * listing, the rendered rows otherwise.
   */
  function TableBody(rows: seq<Submission>, timeText: int -> string): (body: string)
    ensures rows == [] ==> body == Placeholder
    ensures rows != [] ==> body == RowsHtml(rows, timeText)
  {
    var h := RowsHtml(rows, timeText);
    RowsHtmlEmpty(rows, timeText);
    if h == "" then Placeholder else h
  }

  /** A valid date renders as ten characters `YYYY-MM-DD` that read back as its year, month and day. */
  lemma DateTextReadsBack(d: Date)
    ensures var s := DateText(d);
            |s| == 10 && s[4] == '-' && s[7] == '-'
            && Text.AllDigits(s[..4]) && Text.DecimalValue(s[..4]) == d.year
            && Text.AllDigits(s[5..7]) && Text.DecimalValue(s[5..7]) == d.month
            && Text.AllDigits(s[8..]) && Text.DecimalValue(s[8..]) == d.day
  {
    DatePartsFit(d);
    var s := DateText(d);
    assert s[..4] == Text.Pad(d.year, 4);
    assert s[5..7] == Text.Pad(d.month, 2);
    assert s[8..] == Text.Pad(d.day, 2);
  }

  /** The first six cells: id, time, name, email, telephone and birth date. */
  lemma CellsFront(r: Submission, timeText: int -> string, c: seq<string>)
    requires c == Cells(r, timeText)
    ensures c[0] == Text.NatText(r.id)
    ensures c[1] == timeText(r.createdAt)
    ensures c[2] == Safe(r.name)
    ensures c[3] == Safe(r.email)
    ensures c[4] == Safe(r.tel)
    ensures c[5] == SafeDate(r.birth)
  {
  }

  /** The last six cells: gender, hobbies, city, English score, source and feedback. */
  lemma CellsBack(r: Submission, timeText: int -> string, c: seq<string>)
    requires c == Cells(r, timeText)
    ensures c[6] == Safe(r.gender)
    ensures c[7] == Safe(r.hobbies)
    ensures c[8] == Safe(r.city)
    ensures c[9] == Safe(r.englishScore)
    ensures c[10] == Safe(r.source)
    ensures c[11] == Safe(r.feedback)
  {
  }

  /** The cells of any row, column by column: each column's value through `safe`. */
  lemma CellsOf(r: Submission, timeText: int -> string)
    ensures Cells(r, timeText)
            == [Text.NatText(r.id), timeText(r.createdAt), Safe(r.name), Safe(r.email), Safe(r.tel),
                SafeDate(r.birth), Safe(r.gender), Safe(r.hobbies), Safe(r.city), Safe(r.englishScore),
                Safe(r.source), Safe(r.feedback)]
  {
    var c := Cells(r, timeText);
    CellsFront(r, timeText, c);
    CellsBack(r, timeText, c);
  }

  /** A row the store wrote shows the submitted answers unchanged, and an absent birth date as an empty cell. */
  lemma StoredRowCells(id: nat, now: int, a: Answers, timeText: int -> string)
    ensures Cells(Stored(id, now, a), timeText)
            == [Text.NatText(id), timeText(now), a.name, a.email, a.tel, SafeDate(a.birth),
                a.gender, a.hobbies, a.city, a.englishScore, a.source, a.feedback]
    ensures a.birth.None? ==> Cells(Stored(id, now, a), timeText)[5] == ""
  {
    CellsOf(Stored(id, now, a), timeText);
  }

  /** A birth date the store wrote renders in its cell as `YYYY-MM-DD`, reading back as that date. */
  lemma StoredBirthCell(id: nat, now: int, a: Answers, timeText: int -> string)
    requires a.birth.Some?
    ensures var c := Cells(Stored(id, now, a), timeText)[5];
            var d := a.birth.value;
            |c| == 10 && c[4] == '-' && c[7] == '-'
            && Text.AllDigits(c[..4]) && Text.DecimalValue(c[..4]) == d.year
            && Text.AllDigits(c[5..7]) && Text.DecimalValue(c[5..7]) == d.month
            && Text.AllDigits(c[8..]) && Text.DecimalValue(c[8..]) == d.day
  {
    DateTextReadsBack(a.birth.value);
  }
}
