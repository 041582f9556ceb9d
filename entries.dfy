/**
 * A tracking entry and the spreadsheet row it is stored as.
 *
 * The entry form writes one row per submission: the name, the date, the
 * time slot, the three checkboxes as the integers 0 and 1, and the note.
 * The reporting views read every row back and turn the checkbox columns
 * into booleans again with `astype(bool)`.
 *
 * A date is a day number; rendering it as text and parsing it back is not
 * part of this model, so a date cell carries the day number itself.
 */
module Entries {

  datatype Option<T> = None | Some(value: T)

  /** A calendar date as a day number; later dates have larger numbers. */
  type Day = int

  /** One logged event, as the form collects it. */
  datatype Entry = Entry(
    name: string,
    date: Day,
    time: string,
    started: bool,
    typeTx: bool,
    typeSrp: bool,
    note: string)

  /** A spreadsheet cell as the sheet holds it: text, an integer or a date. */
  datatype Cell = Text(text: string) | Int(value: int) | Date(day: Day)

  /** One spreadsheet row, and the whole sheet (rows in insertion order). */
  type Row = seq<Cell>
  type Sheet = seq<Row>

  /** Number of columns of a stored entry. */
  const RowWidth: nat := 7

  /** `int(b)`: a checkbox value as the integer 0 or 1. */
  function FlagCell(b: bool): (c: Cell)
    ensures c.Int? && (c.value == 0 || c.value == 1)
    ensures c.value == 1 <==> b
  {
    Int(if b then 1 else 0)
  }

  /** Python truthiness of a cell, which is what `astype(bool)` computes: non-zero, non-empty. */
  function Truthy(c: Cell): (b: bool)
    ensures !b <==> c == Int(0) || c == Text("")
  {
    match c
    case Int(n) => n != 0
    case Text(s) => s != ""
    case Date(_) => true
  }

  /**
   * Reads a stored row back as an entry: seven columns, text in the name,
   * time and note columns, a date in the date column; each checkbox column
   * goes through `astype(bool)`. Any other row is not an entry.
   */
  function DecodeRow(r: Row): (e: Option<Entry>)
    ensures e.Some? <==>
      |r| == RowWidth && r[0].Text? && r[1].Date? && r[2].Text? && r[6].Text?
    ensures e.Some? ==>
      && e.value.name == r[0].text && e.value.date == r[1].day && e.value.time == r[2].text
      && e.value.started == Truthy(r[3]) && e.value.typeTx == Truthy(r[4])
      && e.value.typeSrp == Truthy(r[5]) && e.value.note == r[6].text
  {
    if |r| == RowWidth && r[0].Text? && r[1].Date? && r[2].Text? && r[6].Text? then
      Some(Entry(r[0].text, r[1].day, r[2].text, Truthy(r[3]), Truthy(r[4]), Truthy(r[5]), r[6].text))
    else
      None
  }

  /**
   * The row the form appends: `[name, str(date), time, int(started),
   * int(typeTx), int(typeSrp), note]`. It has seven columns, its checkbox
   * columns hold 0 or 1, and reading it back gives the entry unchanged.
   */
  function EncodeRow(e: Entry): (r: Row)
    ensures |r| == RowWidth
    ensures forall k :: 3 <= k < 6 ==> r[k].Int? && (r[k].value == 0 || r[k].value == 1)
    ensures DecodeRow(r) == Some(e)
  {
    [Text(e.name), Date(e.date), Text(e.time),
     FlagCell(e.started), FlagCell(e.typeTx), FlagCell(e.typeSrp), Text(e.note)]
  }

  /** `astype(bool)` recovers a checkbox from its stored 0/1 value. */
  lemma FlagRoundTrip(b: bool)
    ensures Truthy(FlagCell(b)) == b
  {
  }

  /**
   * `get_all_records` followed by the `astype(bool)` decoding: every row
   * read back as an entry, in sheet order; no result if some row is not
   * an entry.
   */
  function ReadEntries(sheet: Sheet): (r: Option<seq<Entry>>)
    ensures r.Some? <==> forall i :: 0 <= i < |sheet| ==> DecodeRow(sheet[i]).Some?
    ensures r.Some? ==> |r.value| == |sheet|
    ensures r.Some? ==> forall i :: 0 <= i < |sheet| ==> DecodeRow(sheet[i]) == Some(r.value[i])
  {
    if sheet == [] then Some([])
    else
      match (DecodeRow(sheet[0]), ReadEntries(sheet[1..]))
      case (Some(e), Some(rest)) =>
        assert forall i :: 1 <= i < |sheet| ==> sheet[i] == sheet[1..][i - 1];
        Some([e] + rest)
      case (None, _) => None
      case (_, None) =>
        assert forall i :: 1 <= i < |sheet| ==> sheet[i] == sheet[1..][i - 1];
        None
  }

  /** `append_row`: the sheet with the entry's row added at the end. */
  function AddEntry(sheet: Sheet, e: Entry): (r: Sheet)
    ensures |r| == |sheet| + 1 && r[..|sheet|] == sheet
    ensures r[|sheet|] == EncodeRow(e) && DecodeRow(r[|sheet|]) == Some(e)
  {
    sheet + [EncodeRow(e)]
  }

  /** After an entry is added, reading the sheet gives the earlier entries followed by the new one. */
  lemma {:induction false} AddThenRead(sheet: Sheet, es: seq<Entry>, e: Entry)
    requires ReadEntries(sheet) == Some(es)
    ensures ReadEntries(AddEntry(sheet, e)) == Some(es + [e])
  {
    if sheet == [] {
      var row := [EncodeRow(e)];
      assert AddEntry(sheet, e) == row && row[1..] == [];
      assert es == [] && es + [e] == [e] + [];
    } else {
      var rest := sheet[1..];
      assert DecodeRow(sheet[0]) == Some(es[0]);
      assert ReadEntries(rest) == Some(es[1..]);
      AddThenRead(rest, es[1..], e);
      assert AddEntry(sheet, e)[1..] == AddEntry(rest, e);
      assert es == [es[0]] + es[1..];
      assert [es[0]] + (es[1..] + [e]) == es + [e];
    }
  }
}
