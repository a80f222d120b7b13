/** The CSV export of the batch: the fixed column order and how each row's
    dictionary is laid out along it. Writing the file and turning cells into
    text are not modelled. */
module Export {
  import opened Pack

  /** A value of a row dictionary. */
  datatype Cell = Text(text: string) | Flag(flag: bool) | Number(number: int)

  /** The CSV header, in column order. */
  const CsvHeader: seq<string> := [
    "school", "school_path", "year", "subject", "pack_notes", "teacher",
    "classroom", "compulsory", "product_name", "sku", "product_type",
    "description", "variant", "deduplicate", "locked", "quantity"]

  /** A row as the dictionary the extractor builds, keyed by output field name. */
  function RowDict(row: PackRow): map<string, Cell>
  {
    map[
      "school" := Text(row.school),
      "school_path" := Text(row.schoolPath),
      "year" := Text(row.year),
      "subject" := Text(row.subject),
      "pack_notes" := Text(row.packNotes),
      "teacher" := Text(row.teacher),
      "classroom" := Text(row.classroom),
      "compulsory" := Flag(row.compulsory),
      "product_name" := Text(row.productName),
      "sku" := Text(row.sku),
      "product_type" := Text(row.productType),
      "description" := Text(row.description),
      "variant" := Text(row.variant),
      "deduplicate" := Flag(row.deduplicate),
      "locked" := Flag(row.locked),
      "quantity" := Number(row.quantity)]
  }

  /** The keys of a row's dictionary are exactly the header names. */
  lemma RowDictKeysAreHeader(row: PackRow)
    ensures forall h | h in CsvHeader :: h in RowDict(row)
    ensures forall h | h in RowDict(row) :: h in CsvHeader
  {
  }

  /** The header names no column twice. */
  lemma HeaderDistinct()
    ensures |CsvHeader| == 16
    ensures forall i, j | 0 <= i < j < |CsvHeader| :: CsvHeader[i] != CsvHeader[j]
  {
  }

  /** The CSV record of a row: its sixteen fields in column order. */
  function CsvRecord(row: PackRow): (cells: seq<Cell>)
    ensures |cells| == |CsvHeader|
  {
    [ Text(row.school), Text(row.schoolPath), Text(row.year), Text(row.subject),
      Text(row.packNotes), Text(row.teacher), Text(row.classroom), Flag(row.compulsory),
      Text(row.productName), Text(row.sku), Text(row.productType), Text(row.description),
      Text(row.variant), Flag(row.deduplicate), Flag(row.locked), Number(row.quantity) ]
  }

  // The column correspondence is proved in groups rather than in one case
  // split over all sixteen columns: each lookup in the sixteen-entry map
  // display costs the solver one key comparison per later entry, and a single
  // sixteen-way case split does not fit its per-proof budget.

  /** Columns 0 and 1 of a record follow the header. */
  lemma CsvRecordColumns0To1(row: PackRow, c: nat)
    requires 0 <= c < 2
    ensures CsvRecord(row)[c] == RowDict(row)[CsvHeader[c]]
  {
    if c == 0 {
    } else {
      assert c == 1;
    }
  }

  /** Columns 2 and 3 of a record follow the header. */
  lemma CsvRecordColumns2To3(row: PackRow, c: nat)
    requires 2 <= c < 4
    ensures CsvRecord(row)[c] == RowDict(row)[CsvHeader[c]]
  {
    if c == 2 {
    } else {
      assert c == 3;
    }
  }

  /** Columns 4 to 7 of a record follow the header. */
  lemma CsvRecordColumns4To7(row: PackRow, c: nat)
    requires 4 <= c < 8
    ensures CsvRecord(row)[c] == RowDict(row)[CsvHeader[c]]
  {
    if c == 4 {
    } else if c == 5 {
    } else if c == 6 {
    } else {
      assert c == 7;
    }
  }

  /** Columns 8 to 11 of a record follow the header. */
  lemma CsvRecordColumns8To11(row: PackRow, c: nat)
    requires 8 <= c < 12
    ensures CsvRecord(row)[c] == RowDict(row)[CsvHeader[c]]
  {
    if c == 8 {
    } else if c == 9 {
    } else if c == 10 {
    } else {
      assert c == 11;
    }
  }

  /** Columns 12 to 15 of a record follow the header. */
  lemma CsvRecordColumns12To15(row: PackRow, c: nat)
    requires 12 <= c < 16
    ensures CsvRecord(row)[c] == RowDict(row)[CsvHeader[c]]
  {
    if c == 12 {
    } else if c == 13 {
    } else if c == 14 {
    } else {
      assert c == 15;
    }
  }

  /** Each column of a record holds the value the row's dictionary gives to that
      column's header name, so writing records by position agrees with writing
      the dictionaries by header. */
  lemma CsvRecordFollowsHeader(row: PackRow)
    ensures forall c | 0 <= c < |CsvHeader| :: CsvRecord(row)[c] == RowDict(row)[CsvHeader[c]]
  {
    forall c | 0 <= c < |CsvHeader|
      ensures CsvRecord(row)[c] == RowDict(row)[CsvHeader[c]]
    {
      if c < 2 {
        CsvRecordColumns0To1(row, c);
      } else if c < 4 {
        CsvRecordColumns2To3(row, c);
      } else if c < 8 {
        CsvRecordColumns4To7(row, c);
      } else if c < 12 {
        CsvRecordColumns8To11(row, c);
      } else {
        CsvRecordColumns12To15(row, c);
      }
    }
  }

  /** The CSV table: the header line, then one record per row in row order. */
  function CsvTable(rows: seq<PackRow>): (table: seq<seq<Cell>>)
    ensures |table| == |rows| + 1
    ensures |table[0]| == |CsvHeader|
    ensures forall c | 0 <= c < |CsvHeader| :: table[0][c] == Text(CsvHeader[c])
    ensures forall i | 0 <= i < |rows| :: table[i + 1] == CsvRecord(rows[i])
  {
    [seq(|CsvHeader|, c requires 0 <= c < |CsvHeader| => Text(CsvHeader[c]))]
      + seq(|rows|, i requires 0 <= i < |rows| => CsvRecord(rows[i]))
  }
}
