/** The CSV export of the table: the header-plus-rows matrix handed to the CSV writer, with
    the latest commit and deploy columns flattened to their timestamps, and the dated name of
    the exported file. */
module Export {
  import opened JsValues
  import opened Text

  /** The columns whose nested commit or deploy record is flattened on export. */
  predicate IsLatest(column: string)
  {
    column == "latest_commit" || column == "latest_deploy"
  }

  /** The header row: the column names, verbatim. */
  function Header(columns: seq<string>): Row
  {
    seq(|columns|, i requires 0 <= i < |columns| => Str(columns[i]))
  }

  /** What the exporter writes for a defined cell of a latest column: `""` for `null` or a
      record with id 0, otherwise the cell's `timestamp` (which is `undefined` for a number
      or a string). */
  function Flatten(cell: Cell): (r: Cell)
    ensures r.Str? <==> cell.Null? || cell.Obj?
    ensures r == Undefined <==> !(cell.Null? || cell.Obj?)
    ensures cell.Obj? && cell.id != 0 ==> r == Str(cell.timestamp)
    ensures r.Str? && r.s != "" ==> cell.Obj? && cell.id != 0 && r.s == cell.timestamp
  {
    match cell
    case Null => Str("")
    case Obj(id, timestamp) => if id == 0 then Str("") else Str(timestamp)
    case _ => Undefined
  }

  /** `convertToCSV(rows, columns)`: the header row, then a formatted copy of each row in
      order. Reading the id of an undefined latest cell (a row shorter than the columns)
      throws a `TypeError`; that is `None`. */
  method ConvertToCsv(rows: seq<Row>, columns: seq<string>) returns (csv: Option<seq<Row>>)
    ensures csv.None? <==> exists i, j :: 0 <= i < |rows| && 0 <= j < |columns| &&
                                          IsLatest(columns[j]) && CellAt(rows[i], j) == Undefined
    ensures csv.Some? ==> |csv.value| == |rows| + 1 && csv.value[0] == Header(columns)
    ensures csv.Some? ==> forall i :: 0 <= i < |rows| ==> |csv.value[i + 1]| == |rows[i]|
    ensures csv.Some? ==> forall i, j :: 0 <= i < |rows| && 0 <= j < |columns| && IsLatest(columns[j]) ==>
              j < |rows[i]| &&
              csv.value[i + 1][j] == (if rows[i][j] == Null || (rows[i][j].Obj? && rows[i][j].id == 0) then Str("")
                                      else if rows[i][j].Obj? then Str(rows[i][j].timestamp)
                                      else Undefined)
    ensures csv.Some? ==> forall i, j ::
              (0 <= i < |rows| && 0 <= j < |rows[i]| && !(j < |columns| && IsLatest(columns[j]))) ==>
              csv.value[i + 1][j] == rows[i][j]
  {
    var out := [Header(columns)];
    var i := 0;
    while i < |rows|
      invariant 0 <= i <= |rows|
      invariant |out| == i + 1 && out[0] == Header(columns)
      invariant forall k, j :: 0 <= k < i && 0 <= j < |columns| && IsLatest(columns[j]) ==>
                  CellAt(rows[k], j) != Undefined
      invariant forall k :: 0 <= k < i ==> Formatted(rows[k], columns, out[k + 1], |columns|)
    {
      var row := rows[i];
      var tempRow := row;
      var index := 0;
      while index < |columns|
        invariant 0 <= index <= |columns|
        invariant forall j :: 0 <= j < index && IsLatest(columns[j]) ==> CellAt(row, j) != Undefined
        invariant Formatted(row, columns, tempRow, index)
      {
        if IsLatest(columns[index]) {
          var cell := CellAt(row, index);
          if cell == Undefined {
            return None;
          }
          tempRow := tempRow[index := Flatten(cell)];
        }
        index := index + 1;
      }
      out := out + [tempRow];
      i := i + 1;
    }
    csv := Some(out);
    forall k, j | 0 <= k < |rows| && 0 <= j < |columns| && IsLatest(columns[j]) ensures j < |rows[k]| {
      assert CellAt(rows[k], j) != Undefined;
    }
  }

  /** `copy` is `row` with the latest columns before `upTo` flattened and every other cell
      left as it is. */
  ghost predicate Formatted(row: Row, columns: seq<string>, copy: Row, upTo: int)
  {
    && |copy| == |row|
    && forall j :: 0 <= j < |row| ==>
         copy[j] == if j < upTo && j < |columns| && IsLatest(columns[j]) then Flatten(row[j]) else row[j]
  }

  // ---------------------------------------------------------------- file name

  /** `getFilename()` for the local date with zero-based month `month0`, day of the month
      `day` and full year `year`. */
  function Filename(month0: int, day: int, year: int): (name: string)
    ensures |name| >= 19 && name[..10] == "changelog-" && name[|name| - 4..] == ".csv"
    ensures name[10..|name| - 4] == IntToString(month0 + 1) + "-" + IntToString(day) + "-" + IntToString(year)
  {
    var m, d, y := IntToString(month0 + 1), IntToString(day), IntToString(year);
    Regroup("changelog-", m, d, y, ".csv");
    FramedName(m + "-" + d + "-" + y);
    "changelog-" + m + "-" + d + "-" + y + ".csv"
  }

  /** Reads month, day and year back out of an export file name. */
  function ParseFilename(name: string): Option<(nat, nat, nat)>
  {
    if |name| < 14 || name[..10] != "changelog-" || name[|name| - 4..] != ".csv" then None
    else ParseDate(name[10..|name| - 4])
  }

  /** Reads `M-D-Y`, three groups of decimal digits, back into the numbers. */
  function ParseDate(middle: string): Option<(nat, nat, nat)>
  {
    var parts := Split(middle, '-');
    if |parts| == 3 && IsDigits(parts[0]) && IsDigits(parts[1]) && IsDigits(parts[2])
    then Some((DecimalValue(parts[0]), DecimalValue(parts[1]), DecimalValue(parts[2])))
    else None
  }

  /** The file name carries the one-based month, the day and the year, in that order,
      unpadded, and they read back exactly. */
  lemma FilenameRoundTrip(month0: int, day: int, year: int)
    requires 0 <= month0 <= 11 && 1 <= day <= 31 && 0 <= year
    ensures var name := Filename(month0, day, year);
            && name[10..|name| - 4] == NatToDecimal(month0 + 1) + "-" + NatToDecimal(day) + "-" + NatToDecimal(year)
            && ParseFilename(name) == Some((month0 + 1, day, year))
  {
    var m, d, y := NatToDecimal(month0 + 1), NatToDecimal(day), NatToDecimal(year);
    var middle := m + "-" + d + "-" + y;
    assert IntToString(month0 + 1) == m && IntToString(day) == d && IntToString(year) == y;
    Regroup("changelog-", m, d, y, ".csv");
    FramedName(middle);
    DateRoundTrip(month0 + 1, day, year);
  }

  /** The dashes of a template literal group with the middle text. */
  lemma Regroup(pre: string, m: string, d: string, y: string, post: string)
    ensures pre + m + "-" + d + "-" + y + post == pre + (m + "-" + d + "-" + y) + post
  {
  }

  lemma FramedName(middle: string)
    ensures var name := "changelog-" + middle + ".csv";
            && |name| >= 14 && name[..10] == "changelog-" && name[|name| - 4..] == ".csv"
            && name[10..|name| - 4] == middle
            && ParseFilename(name) == ParseDate(middle)
  {
  }

  /** The three numbers written as dash-separated decimal text read back exactly. */
  lemma DateRoundTrip(m: nat, d: nat, y: nat)
    ensures ParseDate(NatToDecimal(m) + "-" + NatToDecimal(d) + "-" + NatToDecimal(y)) == Some((m, d, y))
  {
    SplitDigitGroups(NatToDecimal(m), NatToDecimal(d), NatToDecimal(y));
    DecimalRoundTrip(m);
    DecimalRoundTrip(d);
    DecimalRoundTrip(y);
  }

  /** Three digit groups joined by dashes split back into the three groups. */
  lemma SplitDigitGroups(m: string, d: string, y: string)
    requires IsDigits(m) && IsDigits(d) && IsDigits(y)
    ensures Split(m + "-" + d + "-" + y, '-') == [m, d, y]
  {
    assert m + "-" + d + "-" + y == Join([m, d, y], '-') by {
      assert [m, d, y][1..] == [d, y];
      assert [d, y][1..] == [y];
      assert Join([d, y], '-') == d + ['-'] + y;
      assert Join([m, d, y], '-') == m + ['-'] + (d + ['-'] + y);
    }
    forall k | 0 <= k < 3 ensures '-' !in [m, d, y][k] {
      assert IsDigits([m, d, y][k]);
    }
    SplitJoin([m, d, y], '-');
  }
}
