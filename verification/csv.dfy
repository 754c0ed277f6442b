/** The data side of `save_to_csv` (scraper.py:179-196): the empty-data guard
    and the table handed to `csv.DictWriter`. Opening the file, quoting and
    UTF-8 encoding are I/O; whether the write succeeds is a parameter. */
module Csv {
  import opened Wrappers
  import opened Records

  /** The `fieldnames` of the writer, which fix the column order. */
  const Header: seq<string> := ["timestamp", "artist", "song", "youtube_id", "data_id"]

  /** `csv.DictWriter` writes a `None` value as an empty field. */
  function Cell(v: Option<string>): string {
    v.GetOr("")
  }

  /** One data row, in header order. */
  function Row(r: Record): (row: seq<string>)
    ensures |row| == |Header|
  {
    [r.timestamp, r.artist, r.song, Cell(r.youtubeId), Cell(r.dataId)]
  }

  /** The header row followed by one row per record, in record order. */
  function Table(data: seq<Record>): (rows: seq<seq<string>>)
    ensures |rows| == |data| + 1 && rows[0] == Header
    ensures forall i :: 0 <= i < |data| ==> rows[i + 1] == Row(data[i])
  {
    if data == [] then [Header]
    else
      var rest := Table(data[..|data| - 1]);
      rest + [Row(data[|data| - 1])]
  }

  /** What a call does to the destination: nothing at all, or the table
      written (or attempted). */
  datatype SaveOutcome =
    | NothingToSave
    | Written(rows: seq<seq<string>>)
    | WriteFailed(rows: seq<seq<string>>)

  /** The boolean `save_to_csv` returns. */
  predicate Saved(out: SaveOutcome) {
    out.Written?
  }

  /** `save_to_csv`. `writeSucceeds` stands for the outcome of opening and
      writing the file. */
  function SaveToCsv(data: seq<Record>, writeSucceeds: bool): (out: SaveOutcome)
    ensures out.NothingToSave? <==> data == []
    ensures Saved(out) <==> data != [] && writeSucceeds
    ensures !out.NothingToSave? ==> out.rows == Table(data)
  {
    if data == [] then NothingToSave
    else if writeSucceeds then Written(Table(data))
    else WriteFailed(Table(data))
  }

  /** The field a reader gets back for a written id: `None` and `""` both come
      back as an empty string. */
  function Reloaded(r: Record): Record {
    r.(youtubeId := Some(Cell(r.youtubeId)), dataId := Some(Cell(r.dataId)))
  }

  /** Reading one data row back as a record (the five columns in header order). */
  function ParseRow(row: seq<string>): (r: Option<Record>)
    ensures r.Some? <==> |row| == |Header|
  {
    if |row| == |Header| then Some(Record(row[0], row[1], row[2], Some(row[3]), Some(row[4])))
    else None
  }

  /** Reading a whole table back: the header must match, and every data row
      must have the five columns. */
  function ParseTable(rows: seq<seq<string>>): (r: Option<seq<Record>>)
    ensures r.Some? ==> |rows| > 0 && rows[0] == Header && |r.value| == |rows| - 1
  {
    if |rows| == 0 || rows[0] != Header then None
    else ParseRows(rows[1..])
  }

  function ParseRows(rows: seq<seq<string>>): (r: Option<seq<Record>>)
    ensures r.Some? ==> |r.value| == |rows|
  {
    if rows == [] then Some([])
    else match (ParseRows(rows[..|rows| - 1]), ParseRow(rows[|rows| - 1]))
      case (Some(init), Some(last)) => Some(init + [last])
      case _ => None
  }

  /** Every record as a reader gets it back. */
  function ReloadedAll(data: seq<Record>): (rs: seq<Record>)
    ensures |rs| == |data|
    ensures forall i :: 0 <= i < |data| ==> rs[i] == Reloaded(data[i])
  {
    if data == [] then [] else ReloadedAll(data[..|data| - 1]) + [Reloaded(data[|data| - 1])]
  }

  /** Reading back a written table gives every record with its text fields
      unchanged; only a missing id turns into an empty one. */
  lemma TableRoundTrip(data: seq<Record>)
    ensures ParseTable(Table(data)) == Some(ReloadedAll(data))
  {
    ParseRowsOfTable(data);
  }

  lemma {:induction false} ParseRowsOfTable(data: seq<Record>)
    ensures ParseRows(Table(data)[1..]) == Some(ReloadedAll(data))
  {
    if data != [] {
      var init := data[..|data| - 1];
      var last := data[|data| - 1];
      ParseRowsOfTable(init);
      var rows := Table(data)[1..];
      assert rows[..|rows| - 1] == Table(init)[1..];
      assert ParseRow(rows[|rows| - 1]) == Some(Reloaded(last));
    }
  }
}
